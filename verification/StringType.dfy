/** `String` of `oslo_config/types.py`, and lists of quoted strings, for which the greedy reading of `List` exists. */
module StringType {
  import opened Wrappers
  import opened Text
  import opened Segments
  import I = IniParser
  import L = ListType

  // A regular expression is the set of texts it finds a match in.
  datatype StringType = StringType(
    quotes: bool, maxLength: nat, regex: Option<string -> bool>, choices: Option<seq<string>>, ignoreCase: bool)

  // The text without its quotes; None for `Non-closed quote`.
  function Unquoted(t: StringType, value: string): Option<string> {
    if t.quotes && value != "" && (value[0] == '"' || value[0] == '\'') then
      if value[|value| - 1] != value[0] then None else Some(I.Unquote(value))
    else Some(value)
  }

  predicate Allowed(t: StringType, value: string) {
    && (t.maxLength > 0 ==> |value| <= t.maxLength)
    && (t.regex.Some? ==> t.regex.value(value))
    && (t.choices.Some? ==>
          if t.ignoreCase then exists c :: c in t.choices.value && Lower(c) == Lower(value)
          else value in t.choices.value)
  }

  function Call(t: StringType, value: string): Option<string> {
    match Unquoted(t, value)
    case Some(v) => if Allowed(t, v) then Some(v) else None
    case None => None
  }

  // The same text but for the size of letters.
  predicate SameLetters(a: string, b: string) {
    |a| == |b| && forall i :: 0 <= i < |a| ==>
      || a[i] == b[i]
      || ('A' <= a[i] <= 'Z' && b[i] as int == a[i] as int + 32)
      || ('A' <= b[i] <= 'Z' && a[i] as int == b[i] as int + 32)
  }

  lemma LowerAlike(a: string, b: string)
    ensures Lower(a) == Lower(b) <==> SameLetters(a, b)
  {
    if Lower(a) == Lower(b) {
      assert |a| == |Lower(a)| == |b|;
      forall i | 0 <= i < |a| ensures LowerChar(a[i]) == LowerChar(b[i]) {
        assert Lower(a)[i] == Lower(b)[i];
      }
    }
  }

  /** What is accepted, and as what: a text in quotes of one kind, where quotes count, as what is between them, every
      other text as it is; provided that it is no longer than a positive limit, the expression is found in it, and it is
      one of the choices, however large its letters if these do not count. */
  lemma AcceptedAs(t: StringType, value: string, v: string)
    ensures Call(t, value) == Some(v) <==>
      && (if t.quotes && value != "" && (value[0] == '"' || value[0] == '\'')
          then value[|value| - 1] == value[0]
              && (if |value| == 1 then v == "" else value == [value[0]] + v + [value[0]])
          else v == value)
      && (t.maxLength == 0 || |v| <= t.maxLength)
      && (t.regex == None || t.regex.value(v))
      && (t.choices == None || exists c :: c in t.choices.value && (c == v || (t.ignoreCase && SameLetters(c, v))))
  {
    hide Lower;
    forall c ensures Lower(c) == Lower(v) <==> SameLetters(c, v) {
      LowerAlike(c, v);
    }
    assert SameLetters(v, v);
    hide SameLetters;
    if t.quotes && |value| > 1 && value[|value| - 1] == value[0] {
      assert value == [value[0]] + value[1..|value| - 1] + [value[0]];
      assert ([value[0]] + v + [value[0]])[1..|v| + 1] == v;
    }
  }

  // A value that was accepted is accepted again as it is, unless it begins with a quote of its own.
  lemma CallIdempotent(t: StringType, value: string)
    requires Call(t, value).Some?
    requires var v := Call(t, value).value; t.quotes && v != "" ==> v[0] != '"' && v[0] != '\''
    ensures Call(t, Call(t, value).value) == Call(t, value)
  {
  }

  /* ---------- lists of quoted strings ---------- */

  const QUOTED_TEXT := StringType(true, 0, None, None, false)

  function QuotedItem(): string -> Option<string> {
    text => Call(QUOTED_TEXT, text)
  }

  function InQuotes(x: string): string {
    "\"" + x + "\""
  }

  function AllInQuotes(xs: seq<string>): (r: seq<string>)
    ensures |r| == |xs|
  {
    seq(|xs|, i requires 0 <= i < |xs| => InQuotes(xs[i]))
  }

  // Nothing but white space stands before some comma, so the opening quote alone is a piece.
  predicate StartsWithComma(x: string) {
    exists m :: 0 <= m < |x| && x[m] == ',' && AllSpace(x[..m])
  }

  predicate NoQuote(x: string) {
    '"' !in x
  }

  // Before the closing quote a beginning of the text ends in something else than a quote, unless it is all white space.
  lemma BeginningOfQuoted(x: string, m: nat)
    requires NoQuote(x) && m < |x| && x[m] == ','
    ensures AllSpace(x[..m]) ==> L.Trimmed(QuotedItem())("\"" + x[..m]) == Some("")
    ensures !AllSpace(x[..m]) ==> L.Trimmed(QuotedItem())("\"" + x[..m]) == None
  {
    hide LStrip;
    var y := "\"" + x[..m];
    if AllSpace(x[..m]) {
      StripPadded("", "\"", x[..m]);
      assert "" + "\"" + x[..m] == y;
      assert Strip(y) == "\"";
    } else {
      StripQuoted(y, x);
    }
  }

  lemma StripQuoted(y: string, x: string)
    requires NoQuote(x) && y != "" && y[0] == '"' && (forall i :: 1 <= i < |y| ==> y[i] in x) && !AllSpace(y[1..])
    ensures Strip(y) != "" && Strip(y)[0] == '"' && Strip(y)[|Strip(y)| - 1] != '"'
  {
    RStripCut(y);
    var r := RStrip(y);
    forall k | |r| <= k < |y| ensures IsSpace(y[k]) {
      assert y[|r|..][k - |r|] == y[k];
    }
    var j :| 0 <= j < |y[1..]| && !IsSpace(y[1..][j]);
    assert j + 1 < |r|;
    LStripHead("", r);
    assert "" + r == r;
    assert r[|r| - 1] == y[|r| - 1];
  }

  lemma WholeQuoted(x: string)
    ensures L.Trimmed(QuotedItem())(InQuotes(x)) == Some(x)
  {
    StripIsStripped(InQuotes(x));
    assert InQuotes(x)[1..|InQuotes(x)| - 1] == x;
  }

  // A proper beginning of the pieces of a quoted text ends before one of its commas.
  lemma ProperBeginning(x: string, k: nat) returns (m: nat)
    requires 0 < k < |Split(InQuotes(x), ',')|
    ensures m < |x| && x[m] == ',' && Join(Split(InQuotes(x), ',')[..k], ',') == "\"" + x[..m]
    ensures k == 1 ==> ',' !in x[..m]
  {
    hide Split, Join;
    var (t, g) := (InQuotes(x), Split(InQuotes(x), ','));
    JoinSplit(t, ',');
    JoinConcat(g[..k], g[k..], ',');
    assert g == g[..k] + g[k..];
    var y, z := Join(g[..k], ','), Join(g[k..], ',');
    assert t == y + [','] + z && t[|y|] == ',';
    m := |y| - 1;
    assert y == t[..|y|] == "\"" + x[..m];
    if k == 1 {
      SplitPieces(t, ',');
      FirstPiece(g);
      assert forall i :: 0 <= i < m ==> x[..m][i] == y[i + 1];
    }
  }

  lemma FirstPiece(g: seq<string>)
    requires g != []
    ensures Join(g[..1], ',') == g[0] && g[0] in g
    ensures |g| == 1 ==> Join(g, ',') == g[0]
  {
  }

  // The pieces of a quoted text are one group exactly when no comma starts it.
  lemma QuotedGroup(x: string)
    requires NoQuote(x) && !StartsWithComma(x)
    ensures Least(L.Trimmed(QuotedItem()), Split(InQuotes(x), ','))
    ensures L.Trimmed(QuotedItem())(Join(Split(InQuotes(x), ','), ',')) == Some(x)
  {
    hide Split, Join, Call, Strip;
    var accept, g := L.Trimmed(QuotedItem()), Split(InQuotes(x), ',');
    JoinSplit(InQuotes(x), ',');
    WholeQuoted(x);
    forall k | 0 < k < |g| ensures accept(Join(g[..k], ',')).None? {
      var m := ProperBeginning(x, k);
      BeginningOfQuoted(x, m);
    }
  }

  lemma QuotedBroken(x: string)
    requires NoQuote(x) && StartsWithComma(x)
    ensures Least(L.Trimmed(QuotedItem()), Split(InQuotes(x), ',')[..1])
    ensures L.Trimmed(QuotedItem())(Join(Split(InQuotes(x), ',')[..1], ',')) == Some("")
    ensures x != ""
  {
    hide Split, Join, Call, Strip;
    var g := Split(InQuotes(x), ',');
    var m :| 0 <= m < |x| && x[m] == ',' && AllSpace(x[..m]);
    JoinSplit(InQuotes(x), ',');
    SplitPieces(InQuotes(x), ',');
    FirstPiece(g);
    assert InQuotes(x)[m + 1] == ',';
    assert |g| > 1;
    var n := ProperBeginning(x, 1);
    forall i | 0 <= i < n ensures x[i] != ',' {
      assert x[..n][i] in x[..n];
    }
    assert n <= m;
    assert x[..n] == x[..m][..n];
    BeginningOfQuoted(x, n);
  }

  lemma QuotedText(xs: seq<string>)
    requires xs != []
    ensures var s := Join(AllInQuotes(xs), ',');
      Strip(s) == s && s != "" && Split(s, ',') == Flat(SplitEach(AllInQuotes(xs)))
  {
    var texts := AllInQuotes(xs);
    L.FormatStripped(texts);
    StripIsStripped(Join(texts, ','));
    SplitJoined(texts);
  }

  lemma QuotedCut(xs: seq<string>)
    requires forall x :: x in xs ==> NoQuote(x) && !StartsWithComma(x)
    ensures AllLeast(L.Trimmed(QuotedItem()), SplitEach(AllInQuotes(xs)))
    ensures Values(L.Trimmed(QuotedItem()), SplitEach(AllInQuotes(xs))) == xs
  {
    hide Least, Join, Split, StartsWithComma, InQuotes;
    var accept, groups := L.Trimmed(QuotedItem()), SplitEach(AllInQuotes(xs));
    forall i | 0 <= i < |xs| ensures Least(accept, groups[i]) && accept(Join(groups[i], ',')) == Some(xs[i]) {
      assert xs[i] in xs;
      QuotedGroup(xs[i]);
    }
  }

  // Cutting one group after its first piece, and the rest anew, keeps the pieces.
  lemma Resplit(before: seq<seq<string>>, g: seq<string>, others: seq<seq<string>>, more: seq<seq<string>>,
                rest: seq<string>)
    requires g != [] && Flat(more) + rest == g[1..] + Flat(others)
    ensures Flat(before + [g[..1]] + more) + rest == Flat(before + [g] + others)
  {
    hide Flat;
    FlatAppend(before + [g[..1]], more);
    FlatAppend(before, [g[..1]]);
    FlatOne(g[..1]);
    FlatAppend(before + [g], others);
    FlatAppend(before, [g]);
    FlatOne(g);
    assert g == g[..1] + g[1..];
    Reassociate(Flat(before), g[..1], g[1..], Flat(others), Flat(more), rest);
  }

  lemma Reassociate(a: seq<string>, b: seq<string>, c: seq<string>, d: seq<string>, e: seq<string>, f: seq<string>)
    requires e + f == c + d
    ensures a + b + e + f == a + (b + c) + d
  {
    assert a + b + e + f == a + b + (e + f);
    assert a + (b + c) + d == a + b + (c + d);
  }

  // The first text that a comma starts is read as the empty text, whatever becomes of the rest.
  lemma BrokenCut(xs: seq<string>, i: nat) returns (groups: seq<seq<string>>, rest: seq<string>)
    requires i < |xs| && forall x :: x in xs[..i] ==> NoQuote(x) && !StartsWithComma(x)
    requires NoQuote(xs[i]) && StartsWithComma(xs[i])
    ensures Cut(L.Trimmed(QuotedItem()), Flat(SplitEach(AllInQuotes(xs))), groups, rest)
    ensures |groups| > i && Values(L.Trimmed(QuotedItem()), groups)[i] == "" && xs[i] != ""
  {
    hide Least, Join, Split, StartsWithComma, InQuotes, Stuck;
    var accept, all := L.Trimmed(QuotedItem()), SplitEach(AllInQuotes(xs));
    var before, g := SplitEach(AllInQuotes(xs[..i])), all[i];
    QuotedCut(xs[..i]);
    QuotedBroken(xs[i]);
    var left := g[1..] + Flat(all[i + 1..]);
    var more;
    more, rest := CutExists(accept, left);
    groups := before + [g[..1]] + more;
    assert all == before + [g] + all[i + 1..];
    Resplit(before, g, all[i + 1..], more, rest);
    assert groups[i] == g[..1];
  }

  lemma {:induction false} FirstBroken(xs: seq<string>) returns (i: nat)
    requires exists x :: x in xs && StartsWithComma(x)
    ensures i < |xs| && StartsWithComma(xs[i]) && forall x :: x in xs[..i] ==> !StartsWithComma(x)
  {
    i := 0;
    assert xs[..|xs|] == xs;
    while !StartsWithComma(xs[i])
      invariant 0 <= i < |xs|
      invariant forall x :: x in xs[..i] ==> !StartsWithComma(x)
      decreases |xs| - i
    {
      assert xs[..i + 1] == xs[..i] + [xs[i]];
      i := i + 1;
    }
  }

  /** Texts without a double quote, each put in double quotes and joined by commas, come back from a list of quoted
      strings exactly when none of them begins, apart from white space, with a comma. */
  lemma QuotedListIff(xs: seq<string>)
    requires forall x :: x in xs ==> NoQuote(x)
    ensures L.ParsesTo(QuotedItem(), false, Join(AllInQuotes(xs), ','), Ok(xs))
       <==> forall x :: x in xs ==> !StartsWithComma(x)
  {
    hide Cut, Join, Split, StartsWithComma, InQuotes, Values, AllLeast, Flat, Strip;
    var item, s := QuotedItem(), Join(AllInQuotes(xs), ',');
    if xs == [] {
      NothingQuoted();
    } else {
      QuotedText(xs);
      if forall x :: x in xs ==> !StartsWithComma(x) {
        QuotedCut(xs);
        assert Cut(L.Trimmed(item), Split(s, ','), SplitEach(AllInQuotes(xs)), []) by { WholeCut(xs); }
        assert L.Outcome(item, SplitEach(AllInQuotes(xs)), []) == Ok(xs);
      } else {
        var i := FirstBroken(xs);
        assert xs[i] in xs && forall x :: x in xs[..i] ==> x in xs;
        var groups, rest := BrokenCut(xs, i);
        CutLeast(L.Trimmed(item), Split(s, ','), groups, rest);
        var r := L.Outcome(item, groups, rest);
        assert L.ParsesTo(item, false, s, r) && r != Ok(xs);
        if L.ParsesTo(item, false, s, Ok(xs)) {
          L.ParsesOnce(item, false, s, r, Ok(xs));
        }
      }
    }
  }

  lemma NothingQuoted()
    ensures L.ParsesTo(QuotedItem(), false, Join(AllInQuotes([]), ','), Ok([]))
  {
    StripIsStripped("");
  }

  lemma WholeCut(xs: seq<string>)
    requires AllLeast(L.Trimmed(QuotedItem()), SplitEach(AllInQuotes(xs)))
    ensures Cut(L.Trimmed(QuotedItem()), Flat(SplitEach(AllInQuotes(xs))), SplitEach(AllInQuotes(xs)), [])
  {
  }

  lemma CutLeast<T>(accept: string -> Option<T>, pieces: seq<string>, groups: seq<seq<string>>, rest: seq<string>)
    requires Cut(accept, pieces, groups, rest)
    ensures AllLeast(accept, groups)
  {
  }
}
