/** `safe_truncate` of `nova/utils.py`: cut the UTF-8 form of a text and drop what the cut left of a character. */
module SafeTruncate {
  import opened Wrappers

  // Unicode scalar values, and bytes.
  type Char = c: int | 0 <= c < 0xD800 || 0xE000 <= c < 0x110000 witness 0
  type Byte = b: int | 0 <= b < 256

  /* ---------- UTF-8, section 3 of RFC 3629 ---------- */

  function EncodeChar(c: Char): (r: seq<Byte>)
    ensures 1 <= |r| <= 4
  {
    var (q1, q2, q3) := (c / 64, c / 64 / 64, c / 64 / 64 / 64);
    if c < 0x80 then [c]
    else if c < 0x800 then [0xC0 + q1, 0x80 + c % 64]
    else if c < 0x10000 then [0xE0 + q2, 0x80 + q1 % 64, 0x80 + c % 64]
    else [0xF0 + q3, 0x80 + q2 % 64, 0x80 + q1 % 64, 0x80 + c % 64]
  }

  function Encode(s: seq<Char>): seq<Byte> {
    if s == [] then [] else EncodeChar(s[0]) + Encode(s[1..])
  }

  predicate Tail(b: Byte) {
    0x80 <= b < 0xC0
  }

  // A code that is a character, and not one that fewer bytes could hold.
  function Checked(code: int, least: nat, size: nat): Option<(Char, nat)> {
    if least <= code < 0x110000 && !(0xD800 <= code < 0xE000) then
      var c: Char := code;
      Some((c, size))
    else None
  }

  // The bits of the following bytes added to those of the leading one.
  function Code(lead: int, following: seq<Byte>): int {
    if following == [] then lead
    else Code(lead, following[..|following| - 1]) * 64 + (following[|following| - 1] as int - 0x80)
  }

  predicate AllTails(b: seq<Byte>) {
    forall i :: 0 <= i < |b| ==> Tail(b[i])
  }

  // The first character of well-formed bytes, and how many bytes it takes.
  function DecodeChar(b: seq<Byte>): (r: Option<(Char, nat)>)
    requires b != []
    ensures r.Some? ==> 1 <= r.value.1 <= |b|
  {
    var lead := b[0] as int;
    if lead < 0x80 then Some((b[0], 1))
    else if 0xC0 <= lead < 0xE0 && |b| >= 2 && AllTails(b[1..2]) then Checked(Code(lead - 0xC0, b[1..2]), 0x80, 2)
    else if 0xE0 <= lead < 0xF0 && |b| >= 3 && AllTails(b[1..3]) then Checked(Code(lead - 0xE0, b[1..3]), 0x800, 3)
    else if 0xF0 <= lead < 0xF8 && |b| >= 4 && AllTails(b[1..4]) then Checked(Code(lead - 0xF0, b[1..4]), 0x10000, 4)
    else None
  }

  // `decode('utf-8', 'strict')`; None for UnicodeDecodeError.
  function Decode(b: seq<Byte>): Option<seq<Char>>
    decreases |b|
  {
    if b == [] then Some([])
    else
      match DecodeChar(b)
      case None => None
      case Some(first) =>
        match Decode(b[first.1..])
        case None => None
        case Some(rest) => Some([first.0] + rest)
  }

  lemma Code1(lead: int, a: Byte)
    ensures Code(lead, [a]) == lead * 64 + (a as int - 0x80)
  {
    assert [a][..0] == [];
  }

  lemma Code2(lead: int, a: Byte, b: Byte)
    ensures Code(lead, [a, b]) == (lead * 64 + (a as int - 0x80)) * 64 + (b as int - 0x80)
  {
    assert [a, b][..1] == [a];
    Code1(lead, a);
  }

  lemma Code3(lead: int, a: Byte, b: Byte, c: Byte)
    ensures Code(lead, [a, b, c]) == ((lead * 64 + (a as int - 0x80)) * 64 + (b as int - 0x80)) * 64 + (c as int - 0x80)
  {
    assert [a, b, c][..2] == [a, b];
    Code2(lead, a, b);
  }

  lemma CharRoundTrip(c: Char, more: seq<Byte>)
    ensures DecodeChar(EncodeChar(c) + more) == Some((c, |EncodeChar(c)|))
  {
    hide Code;
    var (e, b) := (EncodeChar(c), EncodeChar(c) + more);
    assert b[0] == e[0];
    if |e| == 2 {
      assert b[1..2] == [e[1]];
      Code1(e[0] as int - 0xC0, e[1]);
    } else if |e| == 3 {
      assert b[1..3] == [e[1], e[2]];
      Code2(e[0] as int - 0xE0, e[1], e[2]);
    } else if |e| == 4 {
      assert b[1..4] == [e[1], e[2], e[3]];
      Code3(e[0] as int - 0xF0, e[1], e[2], e[3]);
    }
  }

  // A character that was cut does not decode.
  lemma CutChar(c: Char, n: nat)
    requires 0 < n < |EncodeChar(c)|
    ensures DecodeChar(EncodeChar(c)[..n]) == None
  {
  }

  // A code is its bits again, six at a time.
  lemma SixBits(q: int, d: int)
    requires 0 <= d < 64
    ensures (q * 64 + d) / 64 == q && (q * 64 + d) % 64 == d
  {
  }

  lemma Strict2(b: seq<Byte>)
    requires b != [] && DecodeChar(b).Some? && DecodeChar(b).value.1 == 2
    ensures EncodeChar(DecodeChar(b).value.0) == b[..2]
  {
    hide Code;
    assert b[1..2] == [b[1]] && Tail(b[1..2][0]);
    Code1(b[0] as int - 0xC0, b[1]);
    SixBits(b[0] as int - 0xC0, b[1] as int - 0x80);
  }

  lemma Strict3(b: seq<Byte>)
    requires b != [] && DecodeChar(b).Some? && DecodeChar(b).value.1 == 3
    ensures EncodeChar(DecodeChar(b).value.0) == b[..3]
  {
    hide Code;
    assert b[1..3] == [b[1], b[2]] && Tail(b[1..3][0]) && Tail(b[1..3][1]);
    var lead := b[0] as int - 0xE0;
    Code2(lead, b[1], b[2]);
    SixBits(lead, b[1] as int - 0x80);
    SixBits(lead * 64 + (b[1] as int - 0x80), b[2] as int - 0x80);
  }

  lemma Strict4(b: seq<Byte>)
    requires b != [] && DecodeChar(b).Some? && DecodeChar(b).value.1 == 4
    ensures EncodeChar(DecodeChar(b).value.0) == b[..4]
  {
    hide Code;
    assert b[1..4] == [b[1], b[2], b[3]] && Tail(b[1..4][0]) && Tail(b[1..4][1]) && Tail(b[1..4][2]);
    var lead := b[0] as int - 0xF0;
    Code3(lead, b[1], b[2], b[3]);
    SixBits(lead, b[1] as int - 0x80);
    SixBits(lead * 64 + (b[1] as int - 0x80), b[2] as int - 0x80);
    SixBits((lead * 64 + (b[1] as int - 0x80)) * 64 + (b[2] as int - 0x80), b[3] as int - 0x80);
  }

  // What decodes is the encoding of what it decodes to: no overlong form, no surrogate, nothing left over.
  lemma CharStrict(b: seq<Byte>)
    requires b != [] && DecodeChar(b).Some?
    ensures EncodeChar(DecodeChar(b).value.0) == b[..DecodeChar(b).value.1]
  {
    var n := DecodeChar(b).value.1;
    if n == 2 {
      Strict2(b);
    } else if n == 3 {
      Strict3(b);
    } else if n == 4 {
      Strict4(b);
    }
  }

  lemma {:induction false} DecodeStrict(b: seq<Byte>)
    requires Decode(b).Some?
    ensures Encode(Decode(b).value) == b
    decreases |b|
  {
    hide DecodeChar, EncodeChar;
    if b != [] {
      var n := DecodeChar(b).value.1;
      CharStrict(b);
      DecodeStrict(b[n..]);
      assert Decode(b).value[1..] == Decode(b[n..]).value;
    }
  }

  /* ---------- characters within a number of bytes ---------- */

  // How many characters lie within the first n bytes.
  function Fit(s: seq<Char>, n: nat): (k: nat)
    ensures k <= |s|
  {
    if s == [] || |EncodeChar(s[0])| > n then 0 else 1 + Fit(s[1..], n - |EncodeChar(s[0])|)
  }

  lemma EncodeMore(s: seq<Char>, k: nat)
    requires s != [] && k < |s|
    ensures Encode(s[..k + 1]) == EncodeChar(s[0]) + Encode(s[1..][..k])
  {
    assert s[..k + 1][1..] == s[1..][..k];
  }

  // That is the longest prefix of s whose encoding has no more than n bytes.
  lemma {:induction false} FitIsLongest(s: seq<Char>, n: nat, k: nat)
    requires k <= |s|
    ensures |Encode(s[..k])| <= n <==> k <= Fit(s, n)
  {
    hide EncodeChar;
    if k > 0 {
      EncodeMore(s, k - 1);
      if |EncodeChar(s[0])| <= n {
        FitIsLongest(s[1..], n - |EncodeChar(s[0])|, k - 1);
      }
    }
  }

  // What lies behind the last whole character is at most three bytes of the next one.
  lemma {:induction false} FitWaste(s: seq<Char>, n: nat)
    requires n <= |Encode(s)|
    ensures |Encode(s[..Fit(s, n)])| <= n <= |Encode(s[..Fit(s, n)])| + 3
  {
    hide EncodeChar;
    if s != [] && |EncodeChar(s[0])| <= n {
      FitWaste(s[1..], n - |EncodeChar(s[0])|);
      EncodeMore(s, Fit(s, n) - 1);
    }
  }

  lemma {:induction false} EncodePrefix(s: seq<Char>, k: nat)
    requires k <= |s|
    ensures |Encode(s[..k])| <= |Encode(s)| && Encode(s[..k]) == Encode(s)[..|Encode(s[..k])|]
  {
    hide EncodeChar;
    if k > 0 {
      EncodeMore(s, k - 1);
      EncodePrefix(s[1..], k - 1);
      var (c, rest, n) := (EncodeChar(s[0]), Encode(s[1..]), |Encode(s[1..][..k - 1])|);
      assert (c + rest)[..|c| + n] == c + rest[..n];
    }
  }

  // The first n bytes of a text decode exactly when they end with a character, and then to the characters in them.
  lemma {:induction false} DecodePrefix(s: seq<Char>, n: nat)
    requires n <= |Encode(s)|
    ensures Decode(Encode(s)[..n]) ==
      if n == |Encode(s[..Fit(s, n)])| then Some(s[..Fit(s, n)]) else None
  {
    hide EncodeChar, DecodeChar;
    if s != [] && n > 0 {
      var (c, rest) := (EncodeChar(s[0]), Encode(s[1..]));
      if n < |c| {
        CutChar(s[0], n);
        assert (c + rest)[..n] == c[..n];
      } else {
        var m := n - |c|;
        assert (c + rest)[..n] == c + rest[..m];
        assert (c + rest[..m])[|c|..] == rest[..m];
        CharRoundTrip(s[0], rest[..m]);
        DecodePrefix(s[1..], m);
        EncodeMore(s, Fit(s, n) - 1);
        assert s[..Fit(s, n)] == [s[0]] + s[1..][..Fit(s, n) - 1];
      }
    }
  }

  // Strict decoding accepts exactly the encodings.
  lemma DecodesIff(b: seq<Byte>, s: seq<Char>)
    ensures Decode(b) == Some(s) <==> b == Encode(s)
  {
    RoundTrip(s);
    if Decode(b) == Some(s) {
      DecodeStrict(b);
    }
  }

  lemma RoundTrip(s: seq<Char>)
    ensures Decode(Encode(s)) == Some(s)
  {
    hide Encode, Decode, Fit;
    var n := |Encode(s)|;
    assert s[..|s|] == s && Encode(s)[..n] == Encode(s);
    FitIsLongest(s, n, |s|);
    DecodePrefix(s, n);
  }

  /* ---------- safe_truncate ---------- */

  // The end of the slice `b[:length]` of n bytes; a negative length counts from the end.
  function SliceEnd(n: nat, length: int): (r: nat)
    ensures r <= n
  {
    if length >= 0 then (if length < n then length else n)
    else if n + length > 0 then n + length else 0
  }

  // What `decode` does with the encoding of standard input, or the default one; None for UnicodeDecodeError.
  type Codec = seq<Byte> -> Option<seq<Char>>

  // `safe_decode`: that encoding first, UTF-8 if it fails.
  function SafeDecode(incoming: Codec, b: seq<Byte>): Option<seq<Char>> {
    if incoming(b).Some? then incoming(b) else Decode(b)
  }

  // The longest beginning of at most n bytes that decodes, decoded.
  function Attempt(incoming: Codec, b: seq<Byte>, n: nat): seq<Char>
    requires n <= |b|
  {
    var r := SafeDecode(incoming, b[..n]);
    if r.Some? then r.value else if n == 0 then [] else Attempt(incoming, b, n - 1)
  }

  function Truncated(incoming: Codec, value: seq<Char>, length: int): seq<Char> {
    Attempt(incoming, Encode(value), SliceEnd(|Encode(value)|, length))
  }

  // Where the codec accepts the beginning of a UTF-8 text it reads the whole characters in it.
  ghost predicate ReadsWhole(incoming: Codec) {
    forall s, n :: 0 <= n <= |Encode(s)| && incoming(Encode(s)[..n]).Some? ==>
      incoming(Encode(s)[..n]) == Some(s[..Fit(s, n)])
  }

  lemma {:induction false} AttemptReads(incoming: Codec, s: seq<Char>, n: nat)
    requires ReadsWhole(incoming) && n <= |Encode(s)|
    ensures Attempt(incoming, Encode(s), n) == s[..Fit(s, n)]
  {
    hide Encode, Decode, Fit;
    DecodePrefix(s, n);
    FitWaste(s, n);
    if SafeDecode(incoming, Encode(s)[..n]).None? && n > 0 {
      SameFit(s, n, n - 1);
      AttemptReads(incoming, s, n - 1);
    }
  }

  /** With UTF-8, or another codec that reads the whole characters of what it accepts, the result is the longest prefix
      of the text that fits in the bytes kept by the slice, and after the slice at most three more bytes are dropped. */
  method SafeTruncate(value: seq<Char>, length: int, incoming: Codec) returns (r: seq<Char>)
    ensures r == Truncated(incoming, value, length)
    ensures ReadsWhole(incoming) ==>
      Truncates(value, length, r) && SliceEnd(|Encode(value)|, length) <= |Encode(r)| + 3
    ensures ReadsWhole(incoming) && length >= 0 ==>
      && r <= value && |Encode(r)| <= length
      && (if |Encode(value)| <= length then r == value else length <= |Encode(r)| + 3)
    ensures ReadsWhole(incoming) && length < 0 ==>
      && r <= value && (|Encode(r)| <= |Encode(value)| + length || r == [])
      && |Encode(value)| + length <= |Encode(r)| + 3
    ensures ReadsWhole(incoming) ==>
      forall k | 0 <= k <= |value| ::
        |Encode(value[..k])| <= (if length >= 0 then length else |Encode(value)| + length) ==> k <= |r|
  {
    hide Encode, Decode, Fit, SafeDecode;
    assert value[..|value|] == value;
    assert [] <= value && Encode([]) == [] && (forall s :: Encode(s) == [] ==> s == []) by { EmptyEncodes(); }
    ghost var all := Encode(value);
    ghost var limit := SliceEnd(|all|, length);
    var encoded := Encode(value);
    var b := encoded[..SliceEnd(|encoded|, length)];
    var decodeOk := false;
    r := [];
    assert SafeDecode(incoming, []).Some? by { EmptyDecodes(incoming); }
    while !decodeOk
      invariant |b| <= limit && b == all[..|b|]
      invariant Attempt(incoming, all, limit) == if decodeOk then r else Attempt(incoming, all, |b|)
      decreases !decodeOk, |b|
    {
      var u := SafeDecode(incoming, b);
      assert |b| == 0 ==> b == [];
      if u.Some? {
        r := u.value;
        decodeOk := true;
      } else {
        b := b[..|b| - 1];
      }
    }
    if ReadsWhole(incoming) {
      AttemptReads(incoming, value, limit);
      FitTruncates(value, length);
    }
  }

  lemma EmptyDecodes(incoming: Codec)
    ensures SafeDecode(incoming, []).Some?
  {
  }

  lemma SameFit(s: seq<Char>, limit: nat, n: nat)
    requires |Encode(s[..Fit(s, limit)])| <= n <= limit
    ensures Fit(s, n) == Fit(s, limit)
  {
    hide Encode, Fit;
    FitIsLongest(s, n, Fit(s, limit));
    FitIsLongest(s, n, Fit(s, n));
    FitIsLongest(s, limit, Fit(s, n));
  }

  lemma EmptyEncodes()
    ensures Encode([]) == [] && forall s :: Encode(s) == [] ==> s == []
  {
  }

  // What `safe_truncate` returns, by its contract alone.
  ghost predicate Truncates(value: seq<Char>, length: int, r: seq<Char>) {
    && r <= value && |Encode(r)| <= SliceEnd(|Encode(value)|, length)
    && forall k :: 0 <= k <= |value| && |Encode(value[..k])| <= SliceEnd(|Encode(value)|, length) ==> k <= |r|
  }

  lemma FitTruncates(value: seq<Char>, length: int)
    ensures var n := SliceEnd(|Encode(value)|, length);
      Truncates(value, length, value[..Fit(value, n)]) && n <= |Encode(value[..Fit(value, n)])| + 3
  {
    hide Encode, Fit;
    var n := SliceEnd(|Encode(value)|, length);
    FitWaste(value, n);
    forall k | 0 <= k <= |value| && |Encode(value[..k])| <= n ensures k <= Fit(value, n) {
      FitIsLongest(value, n, k);
    }
  }

  // It is one text only, and for a length that is not negative truncating again changes nothing.
  lemma TruncatedOnce(value: seq<Char>, length: int, r: seq<Char>, q: seq<Char>)
    requires Truncates(value, length, r) && Truncates(value, length, q)
    ensures r == q
  {
    assert value[..|r|] == r && value[..|q|] == q;
  }

  lemma Idempotent(value: seq<Char>, length: nat, r: seq<Char>, q: seq<Char>)
    requires Truncates(value, length, r) && Truncates(r, length, q)
    ensures q == r && |Encode(r)| <= length
  {
    assert r[..|r|] == r;
  }

  // A negative length is not such a limit: it cuts again every time, until nothing is left.
  lemma NegativeLengthShrinks(value: seq<Char>, length: int, r: seq<Char>)
    requires length < 0 && Truncates(value, length, r)
    ensures r == value <==> value == []
  {
    assert value != [] ==> |Encode(value)| > 0;
  }

  /* ---------- the encoding of standard input ---------- */

  // `safe_truncate` is right for every text and length exactly when the codec tried first reads whole characters.
  lemma RightIffReadsWhole(incoming: Codec)
    ensures (forall value, length :: Truncates(value, length, Truncated(incoming, value, length)))
       <==> ReadsWhole(incoming)
  {
    hide Encode, Decode, Fit, Truncates, SliceEnd;
    if ReadsWhole(incoming) {
      forall value, length ensures Truncates(value, length, Truncated(incoming, value, length)) {
        AttemptReads(incoming, value, SliceEnd(|Encode(value)|, length));
        FitTruncates(value, length);
      }
    }
    if forall value, length :: Truncates(value, length, Truncated(incoming, value, length)) {
      forall s, n | 0 <= n <= |Encode(s)| && incoming(Encode(s)[..n]).Some?
        ensures incoming(Encode(s)[..n]) == Some(s[..Fit(s, n)])
      {
        WholeSlice(|Encode(s)|, n);
        assert Truncates(s, n, Truncated(incoming, s, n));
        FitTruncates(s, n);
        TruncatedOnce(s, n, Truncated(incoming, s, n), s[..Fit(s, n)]);
      }
    }
  }

  lemma WholeSlice(size: nat, n: nat)
    requires n <= size
    ensures SliceEnd(size, n) == n
  {
  }

  lemma Utf8ReadsWhole()
    ensures ReadsWhole(Decode)
  {
    hide Encode, Decode, Fit;
    forall s, n | 0 <= n <= |Encode(s)| && Decode(Encode(s)[..n]).Some?
      ensures Decode(Encode(s)[..n]) == Some(s[..Fit(s, n)])
    {
      DecodePrefix(s, n);
    }
  }

  function AsChars(b: seq<Byte>): seq<Char> {
    seq(|b|, i requires 0 <= i < |b| => var c: Char := b[i]; c)
  }

  function Ascii(): Codec {
    b => if forall i :: 0 <= i < |b| ==> b[i] < 0x80 then Some(AsChars(b)) else None
  }

  lemma {:induction false} AsciiDecodes(b: seq<Byte>)
    requires forall i :: 0 <= i < |b| ==> b[i] < 0x80
    ensures Decode(b) == Some(AsChars(b))
    decreases |b|
  {
    hide DecodeChar, AsChars;
    AsCharsCons(b);
    if b != [] {
      AsciiFirst(b);
      AsciiDecodes(b[1..]);
    }
  }

  lemma AsCharsCons(b: seq<Byte>)
    ensures AsChars(b) == if b == [] then [] else [b[0]] + AsChars(b[1..])
  {
  }

  lemma AsciiFirst(b: seq<Byte>)
    requires b != [] && b[0] < 0x80
    ensures DecodeChar(b) == Some((b[0], 1))
  {
  }

  lemma AsciiReadsWhole()
    ensures ReadsWhole(Ascii())
    ensures forall b :: Ascii()(b).Some? <==> forall i :: 0 <= i < |b| ==> b[i] < 0x80
  {
    hide Encode, Decode, Fit;
    forall s, n | 0 <= n <= |Encode(s)| && Ascii()(Encode(s)[..n]).Some?
      ensures Ascii()(Encode(s)[..n]) == Some(s[..Fit(s, n)])
    {
      AsciiDecodes(Encode(s)[..n]);
      DecodePrefix(s, n);
    }
  }

  // Every byte is a character of Latin-1, so nothing is ever dropped and nothing is read as UTF-8.
  function Latin1(): Codec {
    b => Some(AsChars(b))
  }

  lemma Latin1Breaks()
    ensures Truncated(Latin1(), [0xE9], 2) == [0xC3, 0xA9]
    ensures !ReadsWhole(Latin1())
  {
    var value: seq<Char> := [0xE9];
    assert value[1..] == [];
    assert EncodeChar(0xE9) == [0xC3, 0xA9];
    assert Encode(value) == [0xC3, 0xA9] && Encode(value)[..2] == [0xC3, 0xA9];
    assert Truncated(Latin1(), value, 2) == AsChars([0xC3, 0xA9]) == [0xC3, 0xA9];
    assert !Truncates(value, 2, Truncated(Latin1(), value, 2)) by {
      assert value[0] == 0xE9;
    }
    RightIffReadsWhole(Latin1());
  }
}
