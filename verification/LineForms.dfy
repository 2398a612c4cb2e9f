/** What `oslo_config/iniparser.py` takes a line for, and what it makes of the lines of one assignment. */
module LineForms {
  import opened Text
  import opened IniParser

  lemma {:induction false} RStripNothing(s: string)
    requires AllSpace(s)
    ensures RStrip(s) == ""
  {
    if s != "" {
      RStripNothing(s[..|s| - 1]);
    }
  }

  /** A line is blank exactly when it has white space only. */
  lemma BlankIff(raw: string)
    ensures Classify(raw).Blank? <==> forall c :: c in raw ==> c in {' ', '\t', '\n', '\r', '\U{0B}', '\U{0C}'}
  {
    hide SplitKeyValue, GetSection;
    RStripCut(raw);
    if forall c :: c in raw ==> c in {' ', '\t', '\n', '\r', '\U{0B}', '\U{0C}'} {
      assert forall i :: 0 <= i < |raw| ==> raw[i] in raw;
      RStripNothing(raw);
    }
    if RStrip(raw) == "" {
      forall c | c in raw ensures c in {' ', '\t', '\n', '\r', '\U{0B}', '\U{0C}'} {
        var i :| 0 <= i < |raw| && raw[i] == c;
        assert IsSpace(raw[0..][i]);
      }
    }
  }

  // What is left of a line with a mark in front, and some text that may be empty.
  lemma MarkedLine(mark: char, before: string, text: string, after: string)
    requires !IsSpace(mark) && AllSpace(before) && AllSpace(after) && Stripped(text)
    ensures var line := RStrip([mark] + before + text + after);
            line != "" && line[0] == mark && LStrip(line[1..]) == text
  {
    if text == "" {
      assert [mark] + before + text + after == [mark] + (before + after);
      RStripTail([mark], before + after);
    } else {
      var s := [mark] + before + text;
      assert s[|s| - 1] == text[|text| - 1];
      RStripTail(s, after);
      assert s[1..] == before + text;
      LStripHead(before, text);
    }
  }

  /** A number sign or a semicolon makes a comment, whose text is what follows without outer white space. */
  lemma CommentForm(mark: char, before: string, text: string, after: string)
    requires (mark == '#' || mark == ';') && AllSpace(before) && AllSpace(after) && Stripped(text)
    ensures Classify([mark] + before + text + after) == CommentLine(text)
  {
    MarkedLine(mark, before, text, after);
  }

  /** A line that begins with a blank or a tab and is not blank continues an assignment, with its text without outer
      white space. */
  lemma ContinuationForm(mark: char, before: string, text: string, after: string)
    requires (mark == ' ' || mark == '\t') && AllSpace(before) && AllSpace(after) && Stripped(text) && text != ""
    ensures Classify([mark] + before + text + after) == Continuation(text)
  {
    var head := [mark] + before;
    var s := head + text;
    assert s[|s| - 1] == text[|text| - 1];
    RStripTail(s, after);
    LStripHead(head, text);
    assert s[0] == mark;
  }

  /** Brackets make a section header of the name between the first and the last character of the line. */
  lemma HeaderForm(name: string, after: string)
    requires AllSpace(after)
    ensures Classify("[" + name + "]" + after) == if name == "" then Malformed(NoSectionName) else SectionHeader(name)
  {
    var line := "[" + name + "]";
    assert line[|line| - 1] == ']' && line[0] == '[' && line[1..|line| - 1] == name;
    RStripTail(line, after);
  }

  /** A line that begins with a bracket and does not end with one is refused. */
  lemma OpenHeader(text: string, after: string)
    requires AllSpace(after) && (text != "" ==> !IsSpace(text[|text| - 1]) && text[|text| - 1] != ']')
    ensures Classify("[" + text + after) == Malformed(NoSectionEnd)
  {
    var line := "[" + text;
    assert text != "" ==> line[|line| - 1] == text[|text| - 1];
    RStripTail(line, after);
    assert line + after == "[" + text + after;
  }

  // The first character of a line that is none of the above.
  predicate Ordinary(c: char) {
    c != ' ' && c != '\t' && c != '[' && c != '#' && c != ';'
  }

  lemma KeyAlone(key: string, sep: char)
    requires NoSeparator(key) && (sep == ':' || sep == '=') && (key == "" || Ordinary(key[0]))
    ensures Ordinary((key + [sep])[0]) && (key + [sep])[0] == if key == "" then sep else key[0]
  {
  }

  /** Any other line is an assignment to what stands before its first colon or equals sign, of what stands behind it,
      both without outer white space, and the value without one pair of like quotes around it. */
  lemma KeyForm(key: string, sep: char, before: string, value: string, after: string)
    requires ':' !in key && '=' !in key && (sep == ':' || sep == '=') && (key == "" || Ordinary(key[0]))
    requires AllSpace(before) && AllSpace(after) && Stripped(value)
    ensures Classify(key + [sep] + before + value + after) ==
      if Strip(key) == "" then Malformed(EmptyKey) else KeyLine(Strip(key), Unquote(value))
  {
    hide Strip, Unquote;
    var line := key + [sep] + (if value == "" then "" else before + value);
    var rest := if value == "" then before + after else after;
    assert key + [sep] + before + value + after == line + rest;
    assert line[|line| - 1] == if value == "" then sep else value[|value| - 1];
    RStripTail(line, rest);
    KeyAlone(key, sep);
    assert line[0] == if key == "" then sep else key[0];
    var shown := if value == "" then "" else before + value;
    SplitsAtFirstSeparator(key, sep, shown);
    StripPadded(if value == "" then "" else before, value, "");
    assert (if value == "" then "" else before) + value + "" == shown;
  }

  /** And one without either sign is refused. */
  lemma NoAssignment(line: string, after: string)
    requires line != "" && Ordinary(line[0]) && !IsSpace(line[|line| - 1]) && ':' !in line && '=' !in line
    requires AllSpace(after)
    ensures Classify(line + after) == Malformed(InvalidAssignment)
  {
    RStripTail(line, after);
    SplitsAtFirstSeparator(line, ':', "");
  }

  /** Quotes go in pairs of one kind, single or double, and a quote by itself is such a pair. */
  lemma QuotesForm(inner: string, v: string)
    ensures Unquote("\"" + inner + "\"") == inner && Unquote("'" + inner + "'") == inner
    ensures Unquote("\"") == "" && Unquote("'") == ""
    ensures v == "" || v[0] != v[|v| - 1] || (v[0] != '"' && v[0] != '\'') ==> Unquote(v) == v
  {
    var a, b := "\"" + inner + "\"", "'" + inner + "'";
    assert a[0] == '"' && a[|a| - 1] == '"' && a[1..|a| - 1] == inner;
    assert b[0] == '\'' && b[|b| - 1] == '\'' && b[1..|b| - 1] == inner;
  }

  /* ---------- several lines ---------- */

  /** A file is read piece by piece, wherever a piece begins with anything but a continuation line. */
  lemma ReadsInPieces(a: seq<Line>, b: seq<Line>, bs: seq<Block>)
    requires Reads(a + b, bs) && (b != [] ==> !b[0].Continuation?)
    ensures exists x, y :: Reads(a, x) && Reads(b, y) && AllEvents(bs) == AllEvents(x) + AllEvents(y)
  {
    hide AllEvents, Flatten;
    ReadingFits(bs);
    forall i | 0 <= i < |a| ensures Fits(a, i) {
      assert Fits(a + b, i);
    }
    forall i | 0 <= i < |b| ensures Fits(b, i) {
      assert Fits(a + b, |a| + i);
      assert i > 0 ==> (a + b)[|a| + i - 1] == b[i - 1];
    }
    var x := FitsReading(a);
    var y := FitsReading(b);
    FlattenBoth(x, y);
    ReadingUnique(a + b, bs, x + y);
  }

  lemma {:induction false} FlattenBoth(x: seq<Block>, y: seq<Block>)
    ensures Flatten(x + y) == Flatten(x) + Flatten(y)
    ensures AllEvents(x + y) == AllEvents(x) + AllEvents(y)
  {
    hide LinesOf, EventsOf, Flatten, AllEvents;
    if y == [] {
      assert x + y == x;
      NoBlocks();
    } else {
      var init, last := y[..|y| - 1], y[|y| - 1];
      FlattenBoth(x, init);
      AddBlock(init, last);
      AddBlock(x + init, last);
      assert init + [last] == y && x + init + [last] == x + y;
    }
  }

  lemma NoBlocks()
    ensures Flatten([]) == [] && AllEvents([]) == []
  {
  }

  /** One line by itself: nothing, a section, a comment, or an assignment of one text. */
  lemma OneLineEvents(l: Line, bs: seq<Block>)
    requires Reads([l], bs)
    ensures match l
      case Blank => AllEvents(bs) == []
      case SectionHeader(name) => AllEvents(bs) == [NewSection(name)]
      case CommentLine(text) => AllEvents(bs) == [Comment(text)]
      case KeyLine(key, first) => AllEvents(bs) == [Assignment(key, [first])]
      case _ => false
  {
    ReadingFits(bs);
    assert Fits([l], 0);
    SingleBlock(BlockOf(l));
    BlockOfLine(l);
    ReadingUnique([l], bs, [BlockOf(l)]);
    if l.KeyLine? {
      assert EventsOf(BlockOf(l)) == [Assignment(l.key, [l.first] + [])];
      assert [l.first] + [] == [l.first];
    }
  }

  lemma SingleBlock(b: Block)
    ensures Flatten([b]) == LinesOf(b) && AllEvents([b]) == EventsOf(b)
  {
    AddBlock([], b);
    assert [] + [b] == [b];
    assert Flatten([]) == [] && AllEvents([]) == [];
    assert [] + LinesOf(b) == LinesOf(b) && [] + EventsOf(b) == EventsOf(b);
  }

  /** A key line and the continuation lines right behind it are one assignment of all their texts in order. */
  lemma AssignmentEvents(key: string, first: string, texts: seq<string>, bs: seq<Block>)
    requires Reads([KeyLine(key, first)] + seq(|texts|, i requires 0 <= i < |texts| => Continuation(texts[i])), bs)
    ensures AllEvents(bs) == [Assignment(key, [first] + texts)]
  {
    var b := AssignBlock(key, first, texts);
    SingleBlock(b);
    assert LinesOf(b) == Flatten(bs);
    ReadingUnique(Flatten(bs), bs, [b]);
  }
}
