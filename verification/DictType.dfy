/** `Dict` of `oslo_config/types.py`, over any value type that is a partial function on texts. */
module DictType {
  import opened Wrappers
  import opened Text
  import opened Segments
  import opened ListType

  datatype DictError = NoBrace | NoClosingBrace | BadPair(text: string) | EmptyKey | DuplicateKey(key: string)

  function BraceBody(value: string, bounds: bool): Result<string, DictError> {
    var s := Strip(value);
    if !bounds then Ok(s)
    else if s == "" || s[0] != '{' then Err(NoBrace)
    else if s[|s| - 1] != '}' then Err(NoClosingBrace)
    else Ok(s[1..|s| - 1])
  }

  // `pair.split(':', 1)`, both halves stripped, the second through the value type.
  function PairOf<V>(valueType: string -> Option<V>): string -> Option<(string, V)> {
    text =>
      var i := Find(text, ':');
      if i < 0 then None
      else match valueType(Strip(text[i + 1..]))
           case Some(v) => Some((Strip(text[..i]), v))
           case None => None
  }

  function MapOf<V>(pairs: seq<(string, V)>): map<string, V> {
    if pairs == [] then map[] else MapOf(pairs[..|pairs| - 1])[pairs[|pairs| - 1].0 := pairs[|pairs| - 1].1]
  }

  // The first pair whose key is empty or was there before.
  function KeyFault<V>(pairs: seq<(string, V)>): Option<DictError> {
    if pairs == [] then None
    else
      var (init, key) := (pairs[..|pairs| - 1], pairs[|pairs| - 1].0);
      if KeyFault(init).Some? then KeyFault(init)
      else if key == "" then Some(EmptyKey)
      else if key in MapOf(init) then Some(DuplicateKey(key))
      else None
  }

  // What the cut of the comma pieces means for the caller: a fault of the keys comes first.
  function DictOutcome<V>(valueType: string -> Option<V>, groups: seq<seq<string>>, rest: seq<string>)
    : Result<map<string, V>, DictError>
    requires AllLeast(PairOf(valueType), groups)
  {
    var pairs := Values(PairOf(valueType), groups);
    match KeyFault(pairs)
    case Some(e) => Err(e)
    case None => if rest == [] then Ok(MapOf(pairs)) else Err(BadPair(Join(rest, ',')))
  }

  ghost predicate DictFromCut<V>(valueType: string -> Option<V>, s: string, r: Result<map<string, V>, DictError>) {
    exists groups, rest :: Cut(PairOf(valueType), Split(s, ','), groups, rest)
        && r == DictOutcome(valueType, groups, rest)
  }

  // r is the reading of value as a dictionary.
  ghost predicate DictParsesTo<V>(valueType: string -> Option<V>, bounds: bool, value: string,
                                  r: Result<map<string, V>, DictError>) {
    match BraceBody(value, bounds)
    case Err(e) => r == Err(e)
    case Ok(s) => if s == "" then r == Ok(map[]) else DictFromCut(valueType, s, r)
  }

  lemma DictParsesOnce<V>(valueType: string -> Option<V>, bounds: bool, value: string,
                          r: Result<map<string, V>, DictError>, q: Result<map<string, V>, DictError>)
    requires DictParsesTo(valueType, bounds, value, r) && DictParsesTo(valueType, bounds, value, q)
    ensures r == q
  {
    hide Flat, Stuck, Least, Values;
    var s := BraceBody(value, bounds);
    if s.Ok? && s.value != "" {
      var pieces := Split(s.value, ',');
      var a, x :| Cut(PairOf(valueType), pieces, a, x) && r == DictOutcome(valueType, a, x);
      var b, y :| Cut(PairOf(valueType), pieces, b, y) && q == DictOutcome(valueType, b, y);
      CutUnique(PairOf(valueType), pieces, a, x, b, y);
    }
  }

  /* ---------- the loops ---------- */

  method DictCall<V>(valueType: string -> Option<V>, bounds: bool, value: string)
    returns (r: Result<map<string, V>, DictError>)
    ensures DictParsesTo(valueType, bounds, value, r)
  {
    hide Least, Stuck, RejectsProper, Flat, Join, Split, Trying, Values, MapOf, KeyFault, PairOf, DictOutcome;
    var result: map<string, V> := map[];
    var s := Strip(value);
    if bounds {
      if s == "" || s[0] != '{' {
        return Err(NoBrace);
      }
      if s[|s| - 1] != '}' {
        return Err(NoClosingBrace);
      }
      s := s[1..|s| - 1];
    }
    if s == "" {
      return Ok(result);
    }
    var pairs := Split(s, ',');
    ghost var accept, pieces := PairOf(valueType), pairs;
    ghost var groups: seq<seq<string>> := [];
    NoPairs(valueType, pieces);
    while pairs != []
      invariant Flat(groups) + pairs == pieces && AllLeast(accept, groups)
      invariant result == MapOf(Values(accept, groups)) && KeyFault(Values(accept, groups)).None?
      decreases |pairs|
    {
      ghost var left := pairs;
      var pair := pairs[0];
      pairs := pairs[1..];
      ghost var group := [pair];
      FirstTry(accept, left);
      var keyValue := ReadPair(valueType, pair);
      while keyValue.None?
        invariant |pairs| < |left| && Trying(accept, left, group, pairs)
        invariant pair == Join(group, ',') && keyValue == accept(pair)
        decreases |pairs|
      {
        if pairs == [] {
          GivesUp(accept, left, group);
          EndsBad(valueType, pieces, groups, group);
          return Err(BadPair(pair));
        }
        TryLonger(accept, left, group, pairs);
        group := group + [pairs[0]];
        pair := pair + "," + pairs[0];
        pairs := pairs[1..];
        keyValue := ReadPair(valueType, pair);
      }
      TakeGroup(accept, pieces, groups, left, group, pairs);
      var (key, v) := keyValue.value;
      AddPair(Values(accept, groups), (key, v));
      if key == "" {
        StopsEarly(valueType, pieces, groups + [group], pairs);
        return Err(EmptyKey);
      }
      if key in result {
        StopsEarly(valueType, pieces, groups + [group], pairs);
        return Err(DuplicateKey(key));
      }
      groups := groups + [group];
      result := result[key := v];
    }
    EndsWell(valueType, pieces, groups);
    return Ok(result);
  }

  // One attempt: `split(':', 1)`, strip, value type.
  method ReadPair<V>(valueType: string -> Option<V>, pair: string) returns (keyValue: Option<(string, V)>)
    ensures keyValue == PairOf(valueType)(pair)
  {
    var i := Find(pair, ':');
    if i < 0 {
      return None;
    }
    var key, text := Strip(pair[..i]), Strip(pair[i + 1..]);
    var v := valueType(text);
    if v.None? {
      return None;
    }
    return Some((key, v.value));
  }

  lemma NoPairs<V>(valueType: string -> Option<V>, pieces: seq<string>)
    ensures Flat([]) + pieces == pieces && MapOf(Values(PairOf(valueType), [])) == map[]
    ensures KeyFault(Values(PairOf(valueType), [])).None?
  {
  }

  lemma AddPair<V>(pairs: seq<(string, V)>, p: (string, V))
    ensures MapOf(pairs + [p]) == MapOf(pairs)[p.0 := p.1]
    ensures KeyFault(pairs + [p]) ==
      if KeyFault(pairs).Some? then KeyFault(pairs)
      else if p.0 == "" then Some(EmptyKey) else if p.0 in MapOf(pairs) then Some(DuplicateKey(p.0)) else None
  {
    assert (pairs + [p])[..|pairs|] == pairs;
  }

  lemma {:induction false} FaultStays<V>(pairs: seq<(string, V)>, more: seq<(string, V)>)
    requires KeyFault(pairs).Some?
    ensures KeyFault(pairs + more) == KeyFault(pairs)
  {
    if more == [] {
      assert pairs + more == pairs;
    } else {
      var init := more[..|more| - 1];
      FaultStays(pairs, init);
      AddPair(pairs + init, more[|more| - 1]);
      assert pairs + more == pairs + init + [more[|more| - 1]];
    }
  }

  // A fault of the keys decides, however the pieces that were not looked at would be cut.
  lemma StopsEarly<V>(valueType: string -> Option<V>, pieces: seq<string>, groups: seq<seq<string>>, left: seq<string>)
    requires Flat(groups) + left == pieces && AllLeast(PairOf(valueType), groups)
    requires KeyFault(Values(PairOf(valueType), groups)).Some?
    ensures exists g, rest ::
              && Cut(PairOf(valueType), pieces, g, rest)
              && DictOutcome(valueType, g, rest) == Err(KeyFault(Values(PairOf(valueType), groups)).value)
  {
    hide Least, Stuck, KeyFault, PairOf;
    var accept := PairOf(valueType);
    var more, rest := CutExists(accept, left);
    FlatAppend(groups, more);
    assert Values(accept, groups + more) == Values(accept, groups) + Values(accept, more);
    FaultStays(Values(accept, groups), Values(accept, more));
    assert Cut(accept, pieces, groups + more, rest);
  }

  lemma EndsBad<V>(valueType: string -> Option<V>, pieces: seq<string>, groups: seq<seq<string>>, rest: seq<string>)
    requires Flat(groups) + rest == pieces && AllLeast(PairOf(valueType), groups) && Stuck(PairOf(valueType), rest)
    requires KeyFault(Values(PairOf(valueType), groups)).None?
    ensures Cut(PairOf(valueType), pieces, groups, rest)
    ensures DictOutcome(valueType, groups, rest) == Err(BadPair(Join(rest, ',')))
  {
  }

  lemma EndsWell<V>(valueType: string -> Option<V>, pieces: seq<string>, groups: seq<seq<string>>)
    requires Flat(groups) + [] == pieces && AllLeast(PairOf(valueType), groups)
    requires KeyFault(Values(PairOf(valueType), groups)).None?
    ensures Cut(PairOf(valueType), pieces, groups, [])
    ensures DictOutcome(valueType, groups, []) == Ok(MapOf(Values(PairOf(valueType), groups)))
  {
  }

  /* ---------- the keys of a result ---------- */

  predicate GoodKeys<V>(pairs: seq<(string, V)>) {
    && (forall i :: 0 <= i < |pairs| ==> pairs[i].0 != "")
    && (forall i, j :: 0 <= i < j < |pairs| ==> pairs[i].0 != pairs[j].0)
  }

  lemma {:induction false} InMapOf<V>(pairs: seq<(string, V)>, key: string)
    ensures key in MapOf(pairs) <==> exists i :: 0 <= i < |pairs| && pairs[i].0 == key
  {
    if pairs != [] {
      var n := |pairs| - 1;
      InMapOf(pairs[..n], key);
      if i :| 0 <= i < |pairs| && pairs[i].0 == key {
        assert i < n ==> pairs[..n][i].0 == key;
      }
    }
  }

  // No fault means: all keys non-empty and no two the same.
  lemma {:induction false} NoFaultIff<V>(pairs: seq<(string, V)>)
    ensures KeyFault(pairs).None? <==> GoodKeys(pairs)
  {
    if pairs != [] {
      var n := |pairs| - 1;
      NoFaultIff(pairs[..n]);
      InMapOf(pairs[..n], pairs[n].0);
      if GoodKeys(pairs) {
        forall i, j | 0 <= i < j < n ensures pairs[..n][i].0 != pairs[..n][j].0 {
        }
      }
    }
  }

  // Then every pair is in the map, and nothing else is.
  lemma {:induction false} MapOfGood<V>(pairs: seq<(string, V)>)
    requires GoodKeys(pairs)
    ensures forall i :: 0 <= i < |pairs| ==> pairs[i].0 in MapOf(pairs) && MapOf(pairs)[pairs[i].0] == pairs[i].1
    ensures |MapOf(pairs)| == |pairs|
  {
    if pairs != [] {
      var n := |pairs| - 1;
      MapOfGood(pairs[..n]);
      InMapOf(pairs[..n], pairs[n].0);
      forall i | 0 <= i < |pairs| ensures pairs[i].0 in MapOf(pairs) && MapOf(pairs)[pairs[i].0] == pairs[i].1 {
        assert i < n ==> pairs[..n][i] == pairs[i];
      }
    }
  }

  /** A successful parse reads each pair once: distinct, non-empty, stripped keys without a colon, as many as
      there are groups. */
  lemma KeysOfResult<V>(valueType: string -> Option<V>, s: string, m: map<string, V>)
    requires DictFromCut(valueType, s, Ok(m))
    ensures forall k :: k in m ==> k != "" && Stripped(k) && ':' !in k
    ensures exists groups :: Cut(PairOf(valueType), Split(s, ','), groups, []) && |m| == |groups|
  {
    hide Flat, Stuck, RejectsProper;
    var groups, rest :| Cut(PairOf(valueType), Split(s, ','), groups, rest)
        && Ok(m) == DictOutcome(valueType, groups, rest);
    var pairs := Values(PairOf(valueType), groups);
    NoFaultIff(pairs);
    MapOfGood(pairs);
    forall k | k in m ensures k != "" && Stripped(k) && ':' !in k {
      InMapOf(pairs, k);
      var i :| 0 <= i < |pairs| && pairs[i].0 == k;
      assert Least(PairOf(valueType), groups[i]);
      KeyOfPair(valueType, Join(groups[i], ','));
    }
  }

  lemma KeyOfPair<V>(valueType: string -> Option<V>, text: string)
    requires PairOf(valueType)(text).Some?
    ensures Stripped(PairOf(valueType)(text).value.0) && ':' !in PairOf(valueType)(text).value.0
  {
    var i := Find(text, ':');
    StripIsStripped(text[..i]);
    StripKeeps(text[..i], ':');
  }

  /* ---------- printing and parsing ---------- */

  function PairText(p: (string, string)): string {
    p.0 + ":" + p.1
  }

  function PairTexts(items: seq<(string, string)>): (r: seq<string>)
    ensures |r| == |items|
  {
    seq(|items|, i requires 0 <= i < |items| => PairText(items[i]))
  }

  // `_formatter`, the items of the dictionary in any order, the sorted one among them.
  function FormatItems(items: seq<(string, string)>): string {
    Join(PairTexts(items), ',')
  }

  predicate CleanPair(p: (string, string)) {
    Stripped(p.0) && ':' !in p.0 && Clean(p.1)
  }

  // The pieces one item gives: a key may hold commas, and then the pieces before its end have no colon.
  function PiecesOf(p: (string, string)): seq<string> {
    Split(PairText(p), ',')
  }

  lemma FindOne(p: (string, string))
    requires ':' !in p.0
    ensures Find(PairText(p), ':') == |p.0|
  {
    FindIn(p.0, ':', p.1);
  }

  lemma AfterColon(p: (string, string))
    ensures forall i :: |p.0| < i < |PairText(p)| ==> PairText(p)[i] in p.1
  {
  }

  // Only the last piece of an item reaches the colon.
  lemma ProperHasNoColon(p: (string, string), k: nat)
    requires CleanPair(p) && 0 < k < |PiecesOf(p)|
    ensures ':' !in Join(PiecesOf(p)[..k], ',')
  {
    hide Split, Join, Find, Stripped;
    var g, t := PiecesOf(p), PairText(p);
    JoinSplit(t, ',');
    JoinConcat(g[..k], g[k..], ',');
    assert g == g[..k] + g[k..];
    var (x, y) := (Join(g[..k], ','), Join(g[k..], ','));
    assert t == x + [','] + y;
    FindOne(p);
    assert t[|x|] == ',';
    AfterColon(p);
    assert |x| <= |p.0|;
    assert forall i :: 0 <= i < |x| ==> x[i] == t[i] && t[i] == p.0[i];
  }

  lemma ItemGroup(valueType: string -> Option<string>, p: (string, string))
    requires CleanPair(p) && valueType(p.1) == Some(p.1)
    ensures Least(PairOf(valueType), PiecesOf(p)) && PairOf(valueType)(Join(PiecesOf(p), ',')) == Some(p)
  {
    hide Strip, Split;
    var (g, t) := (PiecesOf(p), PairText(p));
    JoinSplit(t, ',');
    FindOne(p);
    assert t[..|p.0|] == p.0 && t[|p.0| + 1..] == p.1;
    StripIsStripped(p.0);
    StripIsStripped(p.1);
    forall k | 0 < k < |g| ensures PairOf(valueType)(Join(g[..k], ',')).None? {
      ProperHasNoColon(p, k);
    }
  }

  predicate Printable(items: seq<(string, string)>) {
    GoodKeys(items) && forall p :: p in items ==> CleanPair(p)
  }

  lemma FormatItemsStripped(items: seq<(string, string)>)
    requires items != [] && Printable(items)
    ensures Strip(FormatItems(items)) == FormatItems(items) && FormatItems(items) != ""
  {
    var texts := PairTexts(items);
    forall i | 0 <= i < |items| ensures Stripped(texts[i]) && texts[i] != "" {
      var p := items[i];
      assert CleanPair(p);
      assert texts[i][0] == p.0[0];
      assert texts[i][|texts[i]| - 1] == if p.1 == "" then ':' else p.1[|p.1| - 1];
    }
    FormatStripped(texts);
    StripIsStripped(FormatItems(items));
  }

  /** A dictionary comes back from its printed form, in whatever order the items were printed, when the value type
      leaves the values alone, keys are stripped, non-empty and without a colon, and values stripped and without
      a comma. Keys may contain commas. */
  lemma DictRoundTrip(valueType: string -> Option<string>, items: seq<(string, string)>)
    requires Printable(items) && forall p :: p in items ==> valueType(p.1) == Some(p.1)
    ensures DictParsesTo(valueType, false, FormatItems(items), Ok(MapOf(items)))
  {
    hide Least, Split, Strip, PairOf, CleanPair;
    if items == [] {
      assert FormatItems(items) == "";
      assert Strip("") == "" by { StripIsStripped(""); }
    } else {
      FormatItemsStripped(items);
      SplitJoined(PairTexts(items));
      var (accept, groups) := (PairOf(valueType), SplitEach(PairTexts(items)));
      forall i | 0 <= i < |items| ensures Least(accept, groups[i]) && accept(Join(groups[i], ',')) == Some(items[i]) {
        assert items[i] in items;
        ItemGroup(valueType, items[i]);
      }
      assert Flat(groups) + [] == Flat(groups);
      assert Values(accept, groups) == items;
      NoFaultIff(items);
      EndsWell(valueType, Flat(groups), groups);
      assert Cut(accept, Split(FormatItems(items), ','), groups, []);
    }
  }

  lemma ColonInLast(x: string, last: string)
    requires ':' !in x && ',' !in last && ':' in x + "," + last
    ensures ',' !in (x + "," + last)[Find(x + "," + last, ':') + 1..]
  {
    var t := x + "," + last;
    var i := Find(t, ':');
    assert forall j :: 0 <= j < |x| ==> t[j] == x[j];
    assert t[|x|] == ',' && i > |x|;
    assert t[i + 1..] == last[i - |x|..];
  }

  // Without a value type that refuses anything, a value stops at the first comma after its colon.
  lemma PlainTail(g: seq<string>)
    requires Least(PairOf(AnyText()), g) && forall p :: p in g ==> ',' !in p
    ensures ',' !in Join(g, ',')[Find(Join(g, ','), ':') + 1..]
  {
    hide Strip, Join, Find;
    var n := |g| - 1;
    assert g[n] in g && ':' in Join(g, ',');
    if n == 0 {
      JoinOne(g);
    } else {
      JoinConcat(g[..n], [g[n]], ',');
      JoinOne([g[n]]);
      assert g == g[..n] + [g[n]];
      assert Join(g, ',') == Join(g[..n], ',') + "," + g[n];
      assert PairOf(AnyText())(Join(g[..n], ',')).None?;
      ColonInLast(Join(g[..n], ','), g[n]);
    }
  }

  lemma PlainValueClean(g: seq<string>)
    requires Least(PairOf(AnyText()), g) && forall p :: p in g ==> ',' !in p
    ensures Clean(PairOf(AnyText())(Join(g, ',')).value.1)
  {
    hide Strip, Join, RejectsProper, Stripped;
    PlainTail(g);
    var tail := Join(g, ',')[Find(Join(g, ','), ':') + 1..];
    StripKeeps(tail, ',');
    StripIsStripped(tail);
  }

  // The last pair of a key is the one the map has.
  lemma {:induction false} MapOfDistinct(items: seq<(string, string)>)
    requires forall i, j :: 0 <= i < j < |items| ==> items[i].0 != items[j].0
    ensures forall i :: 0 <= i < |items| ==> items[i].0 in MapOf(items) && MapOf(items)[items[i].0] == items[i].1
  {
    if items != [] {
      var n := |items| - 1;
      MapOfDistinct(items[..n]);
      forall i | 0 <= i < |items| ensures items[i].0 in MapOf(items) && MapOf(items)[items[i].0] == items[i].1 {
        assert i < n ==> items[..n][i] == items[i];
      }
    }
  }

  // What a successful parse puts in the map.
  lemma PlainResultClean(s: string, m: map<string, string>)
    requires DictFromCut(AnyText(), s, Ok(m))
    ensures forall k :: k in m ==> Clean(m[k])
  {
    hide Stuck, RejectsProper, Strip, PairOf, Clean;
    var groups, rest :| Cut(PairOf(AnyText()), Split(s, ','), groups, rest)
        && Ok(m) == DictOutcome(AnyText(), groups, rest);
    var pairs := Values(PairOf(AnyText()), groups);
    NoFaultIff(pairs);
    MapOfGood(pairs);
    SplitPieces(s, ',');
    forall k | k in m ensures Clean(m[k]) {
      InMapOf(pairs, k);
      var i :| 0 <= i < |pairs| && pairs[i].0 == k;
      assert groups[i] in groups && Least(PairOf(AnyText()), groups[i]);
      InFlat(groups, i);
      PlainValueClean(groups[i]);
    }
  }

  // With the default value type these are exactly the dictionaries that come back.
  lemma PlainDictRoundTripIff(items: seq<(string, string)>)
    requires forall i, j :: 0 <= i < j < |items| ==> items[i].0 != items[j].0
    ensures DictParsesTo(AnyText(), false, FormatItems(items), Ok(MapOf(items)))
       <==> forall p :: p in items ==> CleanPair(p) && p.0 != ""
  {
    if forall p :: p in items ==> CleanPair(p) && p.0 != "" {
      DictRoundTrip(AnyText(), items);
    }
    if DictParsesTo(AnyText(), false, FormatItems(items), Ok(MapOf(items))) {
      var s := Strip(FormatItems(items));
      MapOfDistinct(items);
      if s != "" {
        KeysOfResult(AnyText(), s, MapOf(items));
        PlainResultClean(s, MapOf(items));
      }
    }
  }
}
