/** The greedy reading of comma-separated text that `List` and `Dict` of `oslo_config/types.py` share: a piece that
    is not accepted is extended by the next one until the whole is accepted or nothing is left. */
module Segments {
  import opened Wrappers
  import opened Text

  predicate RejectsProper<T>(accept: string -> Option<T>, group: seq<string>) {
    forall k :: 0 < k < |group| ==> accept(Join(group[..k], ',')).None?
  }

  // A group is accepted and no shorter beginning of it is.
  predicate Least<T>(accept: string -> Option<T>, group: seq<string>) {
    group != [] && accept(Join(group, ',')).Some? && RejectsProper(accept, group)
  }

  // No beginning of the rest is accepted.
  predicate Stuck<T>(accept: string -> Option<T>, rest: seq<string>) {
    rest != [] && accept(Join(rest, ',')).None? && RejectsProper(accept, rest)
  }

  predicate AllLeast<T>(accept: string -> Option<T>, groups: seq<seq<string>>) {
    forall g :: g in groups ==> Least(accept, g)
  }

  function Flat(groups: seq<seq<string>>): seq<string> {
    if groups == [] then [] else groups[0] + Flat(groups[1..])
  }

  // groups, and a rest without an accepted beginning, make up the pieces.
  predicate Cut<T>(accept: string -> Option<T>, pieces: seq<string>, groups: seq<seq<string>>, rest: seq<string>) {
    Flat(groups) + rest == pieces && AllLeast(accept, groups) && (rest == [] || Stuck(accept, rest))
  }

  function Values<T>(accept: string -> Option<T>, groups: seq<seq<string>>): (r: seq<T>)
    requires AllLeast(accept, groups)
    ensures |r| == |groups|
  {
    seq(|groups|, i requires 0 <= i < |groups| =>
      assert Least(accept, groups[i]); accept(Join(groups[i], ',')).value)
  }

  lemma {:induction false} FlatAppend(a: seq<seq<string>>, b: seq<seq<string>>)
    ensures Flat(a + b) == Flat(a) + Flat(b)
  {
    if a == [] {
      assert a + b == b;
    } else {
      assert (a + b)[1..] == a[1..] + b;
      FlatAppend(a[1..], b);
    }
  }

  lemma FlatOne(g: seq<string>)
    ensures Flat([g]) == g
  {
    assert [g][1..] == [];
  }

  lemma ValuesAppend<T>(accept: string -> Option<T>, groups: seq<seq<string>>, g: seq<string>)
    requires AllLeast(accept, groups) && Least(accept, g)
    ensures AllLeast(accept, groups + [g])
    ensures Values(accept, groups + [g]) == Values(accept, groups) + [accept(Join(g, ',')).value]
  {
  }

  // Of two groups at the start of one text neither can be longer.
  lemma SameFirst<T>(accept: string -> Option<T>, a: seq<string>, r: seq<string>, b: seq<string>, q: seq<string>)
    requires a + r == b + q && Least(accept, a)
    requires Least(accept, b) || (q == [] && Stuck(accept, b))
    ensures |a| <= |b| ==> Least(accept, b) && a == b && r == q
  {
    if |a| <= |b| {
      assert b[..|a|] == (a + r)[..|a|] == a;
      assert !(|a| < |b|);
      assert a == b;
      assert r == (a + r)[|a|..] == q;
    }
  }

  // There is one way only to cut a text.
  lemma {:induction false} CutUnique<T>(accept: string -> Option<T>, pieces: seq<string>,
                                        a: seq<seq<string>>, r: seq<string>, b: seq<seq<string>>, q: seq<string>)
    requires Cut(accept, pieces, a, r) && Cut(accept, pieces, b, q)
    ensures a == b && r == q
    decreases |a| + |b|
  {
    if a != [] && b != [] {
      var (x, y) := (Flat(a[1..]) + r, Flat(b[1..]) + q);
      assert a[0] + x == pieces && b[0] + y == pieces;
      assert Least(accept, a[0]) && Least(accept, b[0]);
      SameFirst(accept, a[0], x, b[0], y);
      SameFirst(accept, b[0], y, a[0], x);
      CutUnique(accept, x, a[1..], r, b[1..], q);
      assert a == [a[0]] + a[1..] && b == [b[0]] + b[1..];
    } else if a != [] {
      FirstOfStuck(accept, a, r, q);
    } else if b != [] {
      FirstOfStuck(accept, b, q, r);
    }
  }

  lemma FirstOfStuck<T>(accept: string -> Option<T>, groups: seq<seq<string>>, rest: seq<string>, pieces: seq<string>)
    requires groups != [] && AllLeast(accept, groups) && pieces == Flat(groups) + rest
    ensures !Stuck(accept, pieces) && pieces != []
  {
    var x := Flat(groups[1..]) + rest;
    assert Least(accept, groups[0]);
    assert groups[0] + x == pieces + [];
    if Stuck(accept, pieces) {
      SameFirst(accept, groups[0], x, pieces, []);
    }
  }

  lemma JoinOne(g: seq<string>)
    requires |g| == 1
    ensures Join(g, ',') == g[0]
  {
  }

  // The groups, joined each and then together, are the text again.
  lemma {:induction false} Rejoined(groups: seq<seq<string>>, rest: seq<string>)
    requires forall g :: g in groups ==> g != []
    ensures Join(Joined(groups) + (if rest == [] then [] else [Join(rest, ',')]), ',') == Join(Flat(groups) + rest, ',')
  {
    hide Join;
    var tail := if rest == [] then [] else [Join(rest, ',')];
    if groups == [] {
      assert Flat(groups) + rest == rest && Joined(groups) + tail == tail;
      if rest != [] { JoinOne(tail); }
    } else {
      var g, more := groups[0], Flat(groups[1..]) + rest;
      var others := Joined(groups[1..]) + tail;
      assert g in groups && forall h :: h in groups[1..] ==> h in groups;
      Rejoined(groups[1..], rest);
      FlatEmpty(groups[1..]);
      assert Joined(groups) + tail == [Join(g, ',')] + others;
      assert Flat(groups) + rest == g + more;
      JoinOne([Join(g, ',')]);
      if more == [] {
        assert g + more == g && [Join(g, ',')] + others == [Join(g, ',')];
      } else {
        JoinConcat(g, more, ',');
        JoinConcat([Join(g, ',')], others, ',');
      }
    }
  }

  lemma FlatEmpty(groups: seq<seq<string>>)
    requires forall g :: g in groups ==> g != []
    ensures Flat(groups) == [] <==> groups == []
  {
    if groups != [] {
      assert groups[0] in groups;
    }
  }

  function Joined(groups: seq<seq<string>>): (r: seq<string>)
    ensures |r| == |groups|
  {
    seq(|groups|, i requires 0 <= i < |groups| => Join(groups[i], ','))
  }

  // Every text can be cut.
  lemma {:induction false} CutExists<T>(accept: string -> Option<T>, pieces: seq<string>)
    returns (groups: seq<seq<string>>, rest: seq<string>)
    ensures Cut(accept, pieces, groups, rest)
    decreases |pieces|
  {
    if pieces == [] {
      groups, rest := [], [];
    } else {
      var k := LeastPrefix(accept, pieces);
      if k == 0 {
        groups, rest := [], pieces;
      } else {
        groups, rest := CutExists(accept, pieces[k..]);
        var all := [pieces[..k]] + groups;
        assert all[1..] == groups;
        groups := all;
      }
    }
  }

  lemma LeastPrefix<T>(accept: string -> Option<T>, pieces: seq<string>) returns (k: nat)
    requires pieces != []
    ensures k <= |pieces|
    ensures if k == 0 then Stuck(accept, pieces) else Least(accept, pieces[..k])
  {
    k := 1;
    while k < |pieces| && accept(Join(pieces[..k], ',')).None?
      invariant 1 <= k <= |pieces|
      invariant forall j :: 0 < j < k ==> accept(Join(pieces[..j], ',')).None?
    {
      k := k + 1;
    }
    assert forall j :: 0 < j < k ==> pieces[..k][..j] == pieces[..j];
    assert pieces[..|pieces|] == pieces;
    if accept(Join(pieces[..k], ',')).None? {
      k := 0;
    }
  }

  /* ---------- splitting what was joined ---------- */

  function SplitEach(texts: seq<string>): (r: seq<seq<string>>)
    ensures |r| == |texts|
  {
    seq(|texts|, i requires 0 <= i < |texts| => Split(texts[i], ','))
  }

  // The pieces of joined texts are the pieces of each, one text after the other.
  lemma {:induction false} SplitJoined(texts: seq<string>)
    requires texts != []
    ensures Split(Join(texts, ','), ',') == Flat(SplitEach(texts))
  {
    var more := texts[1..];
    assert SplitEach(texts)[1..] == SplitEach(more);
    if more == [] {
      assert Flat(SplitEach(texts)) == Split(texts[0], ',') + [];
    } else {
      SplitJoined(more);
      SplitConcat(texts[0], Join(more, ','), ',');
    }
  }

  /* ---------- one step of the loops ---------- */

  // The pieces popped so far for the next group, none of whose beginnings was accepted.
  predicate Trying<T>(accept: string -> Option<T>, left: seq<string>, group: seq<string>, values: seq<string>) {
    group != [] && group + values == left && RejectsProper(accept, group)
  }

  lemma TryLonger<T>(accept: string -> Option<T>, left: seq<string>, group: seq<string>, values: seq<string>)
    requires Trying(accept, left, group, values) && values != [] && accept(Join(group, ',')).None?
    ensures Trying(accept, left, group + [values[0]], values[1..])
    ensures Join(group + [values[0]], ',') == Join(group, ',') + [','] + values[0]
  {
    var longer := group + [values[0]];
    forall k | 0 < k < |longer| ensures accept(Join(longer[..k], ',')).None? {
      if k < |group| {
        assert longer[..k] == group[..k];
      } else {
        assert longer[..k] == group;
      }
    }
    JoinConcat(group, [values[0]], ',');
  }

  lemma TakeGroup<T>(accept: string -> Option<T>, pieces: seq<string>, groups: seq<seq<string>>, left: seq<string>,
                     group: seq<string>, values: seq<string>)
    requires Flat(groups) + left == pieces && AllLeast(accept, groups)
    requires Trying(accept, left, group, values) && accept(Join(group, ',')).Some?
    ensures Flat(groups + [group]) + values == pieces && AllLeast(accept, groups + [group])
    ensures Values(accept, groups + [group]) == Values(accept, groups) + [accept(Join(group, ',')).value]
  {
    FlatAppend(groups, [group]);
    FlatOne(group);
    ValuesAppend(accept, groups, group);
  }
}
