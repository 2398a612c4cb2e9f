/** `List` of `oslo_config/types.py`, over any item type that is a partial function on texts. */
module ListType {
  import opened Wrappers
  import opened Text
  import opened Segments

  datatype TypeError = NoOpening | NoClosing | Rejected(text: string)

  // The text between the bounds, if there are bounds.
  function Body(value: string, bounds: bool): Result<string, TypeError> {
    var s := Strip(value);
    if !bounds then Ok(s)
    else if s == "" || s[0] != '[' then Err(NoOpening)
    else if s[|s| - 1] != ']' then Err(NoClosing)
    else Ok(s[1..|s| - 1])
  }

  // `self.item_type(value.strip())`
  function Trimmed<T>(item: string -> Option<T>): string -> Option<T> {
    text => item(Strip(text))
  }

  // What the cut of the comma pieces means for the caller.
  function Outcome<T>(item: string -> Option<T>, groups: seq<seq<string>>, rest: seq<string>): Result<seq<T>, TypeError>
    requires AllLeast(Trimmed(item), groups)
  {
    if rest == [] then Ok(Values(Trimmed(item), groups)) else Err(Rejected(Join(rest, ',')))
  }

  ghost predicate FromCut<T>(item: string -> Option<T>, s: string, r: Result<seq<T>, TypeError>) {
    exists groups, rest :: Cut(Trimmed(item), Split(s, ','), groups, rest) && r == Outcome(item, groups, rest)
  }

  // r is the reading of value as a list.
  ghost predicate ParsesTo<T>(item: string -> Option<T>, bounds: bool, value: string, r: Result<seq<T>, TypeError>) {
    match Body(value, bounds)
    case Err(e) => r == Err(e)
    case Ok(s) => if s == "" then r == Ok([]) else FromCut(item, s, r)
  }

  lemma ParsesOnce<T>(item: string -> Option<T>, bounds: bool, value: string,
                      r: Result<seq<T>, TypeError>, q: Result<seq<T>, TypeError>)
    requires ParsesTo(item, bounds, value, r) && ParsesTo(item, bounds, value, q)
    ensures r == q
  {
    hide Flat, Stuck, Least, Values;
    var s := Body(value, bounds);
    if s.Ok? && s.value != "" {
      var pieces := Split(s.value, ',');
      var a, x :| Cut(Trimmed(item), pieces, a, x) && r == Outcome(item, a, x);
      var b, y :| Cut(Trimmed(item), pieces, b, y) && q == Outcome(item, b, y);
      CutUnique(Trimmed(item), pieces, a, x, b, y);
    }
  }

  method Call<T>(item: string -> Option<T>, bounds: bool, value: string) returns (r: Result<seq<T>, TypeError>)
    ensures ParsesTo(item, bounds, value, r)
  {
    hide Least, Stuck, RejectsProper, Flat, Join, Split, Trying, Values;
    var result: seq<T> := [];
    var s := Strip(value);
    if bounds {
      if s == "" || s[0] != '[' {
        return Err(NoOpening);
      }
      if s[|s| - 1] != ']' {
        return Err(NoClosing);
      }
      s := s[1..|s| - 1];
    }
    if s == "" {
      return Ok(result);
    }
    var values := Split(s, ',');
    ghost var accept, pieces := Trimmed(item), values;
    ghost var groups: seq<seq<string>> := [];
    assert Flat(groups) + values == pieces && Values(accept, groups) == [] by { EmptyCut(accept, pieces); }
    while values != []
      invariant Flat(groups) + values == pieces && AllLeast(accept, groups)
      invariant result == Values(accept, groups)
      decreases |values|
    {
      ghost var left := values;
      var text, popped := values[0], values[1..];
      values := popped;
      ghost var group := [text];
      FirstTry(accept, left);
      var validated := item(Strip(text));
      while validated.None?
        invariant |values| < |left| && Trying(accept, left, group, values)
        invariant text == Join(group, ',') && validated == item(Strip(text))
        decreases |values|
      {
        if values == [] {
          assert Cut(accept, pieces, groups, group) by { GivesUp(accept, left, group); }
          return Err(Rejected(text));
        }
        TryLonger(accept, left, group, values);
        group := group + [values[0]];
        text := text + "," + values[0];
        values := values[1..];
        validated := item(Strip(text));
      }
      TakeGroup(accept, pieces, groups, left, group, values);
      groups := groups + [group];
      result := result + [validated.value];
    }
    assert Cut(accept, pieces, groups, []);
    return Ok(result);
  }

  lemma EmptyCut<T>(accept: string -> Option<T>, pieces: seq<string>)
    ensures Flat([]) + pieces == pieces && Values(accept, []) == []
  {
  }

  lemma FirstTry<T>(accept: string -> Option<T>, left: seq<string>)
    requires left != []
    ensures Trying(accept, left, [left[0]], left[1..]) && Join([left[0]], ',') == left[0]
  {
  }

  lemma GivesUp<T>(accept: string -> Option<T>, left: seq<string>, group: seq<string>)
    requires Trying(accept, left, group, []) && accept(Join(group, ',')).None?
    ensures Stuck(accept, group) && group == left
  {
  }

  // Some tail of the pieces, reached group by group, has no accepted beginning.
  ghost predicate GetsStuck<T>(item: string -> Option<T>, s: string) {
    exists groups, rest :: Stuck(Trimmed(item), rest) && Cut(Trimmed(item), Split(s, ','), groups, rest)
  }

  lemma FailsIffStuck<T>(item: string -> Option<T>, s: string, r: Result<seq<T>, TypeError>)
    requires FromCut(item, s, r)
    ensures r.Err? <==> GetsStuck(item, s)
  {
    hide Least, RejectsProper, Flat, AllLeast, Join;
    var groups, rest :| Cut(Trimmed(item), Split(s, ','), groups, rest) && r == Outcome(item, groups, rest);
    forall g, q | Cut(Trimmed(item), Split(s, ','), g, q) ensures q == rest {
      CutUnique(Trimmed(item), Split(s, ','), g, q, groups, rest);
    }
    if rest == [] {
      assert r.Ok?;
    }
  }

  // The groups of a cut, joined again, are the text that was parsed: nothing is lost, nothing is used twice.
  lemma GroupsMakeText<T>(item: string -> Option<T>, s: string, groups: seq<seq<string>>, rest: seq<string>)
    requires Cut(Trimmed(item), Split(s, ','), groups, rest)
    ensures Join(Joined(groups) + (if rest == [] then [] else [Join(rest, ',')]), ',') == s
  {
    forall g | g in groups ensures g != [] {
      assert Least(Trimmed(item), g);
    }
    Rejoined(groups, rest);
    JoinSplit(s, ',');
  }

  /* ---------- printing and parsing ---------- */

  // `_formatter` of a list of texts.
  function Format(xs: seq<string>): string {
    Join(xs, ',')
  }

  predicate Clean(x: string) {
    Stripped(x) && ',' !in x
  }

  predicate AllClean(xs: seq<string>) {
    forall x :: x in xs ==> Clean(x)
  }

  lemma {:induction false} FormatStripped(xs: seq<string>)
    requires xs != [] && Stripped(xs[0]) && Stripped(xs[|xs| - 1])
    ensures Stripped(Format(xs))
    ensures |xs| > 1 ==> Format(xs) != ""
  {
    if |xs| > 1 {
      var (init, last) := (xs[..|xs| - 1], xs[|xs| - 1]);
      assert xs == init + [last];
      JoinConcat(init, [last], ',');
      JoinConcat([xs[0]], xs[1..], ',');
      assert xs == [xs[0]] + xs[1..];
    }
  }

  function Singletons(xs: seq<string>): (r: seq<seq<string>>)
    ensures |r| == |xs|
  {
    seq(|xs|, i requires 0 <= i < |xs| => [xs[i]])
  }

  lemma {:induction false} FlatSingletons(xs: seq<string>)
    ensures Flat(Singletons(xs)) == xs
  {
    if xs != [] {
      FlatSingletons(xs[1..]);
      assert Singletons(xs)[1..] == Singletons(xs[1..]);
    }
  }

  // A list of clean items that the item type leaves alone comes back, unless it is the list of one empty text.
  lemma RoundTrip(item: string -> Option<string>, xs: seq<string>)
    requires AllClean(xs) && forall x :: x in xs ==> item(x) == Some(x)
    ensures ParsesTo(item, false, Format(xs), Ok(xs)) <==> xs != [""]
  {
    if xs == [] || xs == [""] {
      assert Strip("") == "";
    } else {
      hide Strip;
      assert Clean(xs[0]) && Clean(xs[|xs| - 1]);
      FormatStripped(xs);
      StripIsStripped(Format(xs));
      assert Split(Format(xs), ',') == xs by { SplitJoin(xs, ','); }
      CleanCut(item, xs);
    }
  }

  lemma CleanCut(item: string -> Option<string>, xs: seq<string>)
    requires AllClean(xs) && forall x :: x in xs ==> item(x) == Some(x)
    ensures Cut(Trimmed(item), xs, Singletons(xs), []) && Outcome(item, Singletons(xs), []) == Ok(xs)
  {
    hide Strip;
    var (accept, groups) := (Trimmed(item), Singletons(xs));
    forall i | 0 <= i < |xs| ensures Least(accept, groups[i]) && accept(Join(groups[i], ',')) == Some(xs[i]) {
      assert Clean(xs[i]);
      StripIsStripped(xs[i]);
    }
    FlatSingletons(xs);
    assert Values(accept, groups) == xs;
  }

  // The default item type takes every text as it is.
  function AnyText(): string -> Option<string> {
    text => Some(text)
  }

  lemma PlainValuesClean(s: string, groups: seq<seq<string>>)
    requires Cut(Trimmed(AnyText()), Split(s, ','), groups, [])
    ensures AllClean(Values(Trimmed(AnyText()), groups))
  {
    var accept := Trimmed(AnyText());
    forall i | 0 <= i < |groups| ensures Clean(Values(accept, groups)[i]) {
      var g := groups[i];
      assert Least(accept, g);
      assert accept(Join(g[..1], ',')).Some?;
      assert Join(g, ',') == g[0];
      InFlat(groups, i);
      SplitPieces(s, ',');
      StripIsStripped(g[0]);
      StripKeeps(g[0], ',');
    }
  }

  lemma {:induction false} InFlat(groups: seq<seq<string>>, i: nat)
    requires i < |groups|
    ensures forall p :: p in groups[i] ==> p in Flat(groups)
  {
    if i > 0 {
      InFlat(groups[1..], i - 1);
    }
  }

  lemma StripKeeps(s: string, c: char)
    requires c !in s
    ensures c !in Strip(s)
  {
    RStripCut(s);
    LStripCut(RStrip(s));
  }

  // With that item type these are the only lists that come back.
  lemma PlainRoundTripIff(xs: seq<string>)
    ensures ParsesTo(AnyText(), false, Format(xs), Ok(xs)) <==> AllClean(xs) && xs != [""]
  {
    if AllClean(xs) {
      RoundTrip(AnyText(), xs);
    }
    if ParsesTo(AnyText(), false, Format(xs), Ok(xs)) {
      var s := Strip(Format(xs));
      if s != "" {
        var groups, rest :| Cut(Trimmed(AnyText()), Split(s, ','), groups, rest)
            && Ok(xs) == Outcome(AnyText(), groups, rest);
        PlainValuesClean(s, groups);
      }
    }
  }
}
