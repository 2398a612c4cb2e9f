/** `string.Template` as `ConfigOpts.Template` configures it (PEP 292), and the `\$` escape of `_substitute`. */
module Template {
  // What a template text is made of.
  datatype Token = Literal(c: char) | Reference(name: string)

  predicate IdStart(c: char) {
    'a' <= c <= 'z' || 'A' <= c <= 'Z' || c == '_'
  }

  predicate IdChar(c: char) {
    IdStart(c) || '0' <= c <= '9' || c == '.'
  }

  // Where the identifier that starts at i ends.
  function IdEnd(s: string, i: nat): (j: nat)
    requires i <= |s|
    ensures i <= j <= |s|
    decreases |s| - i
  {
    if i < |s| && IdChar(s[i]) then IdEnd(s, i + 1) else i
  }

  // A backslash before a dollar sign counts as a second dollar sign.
  function Unescape(s: string): string {
    if |s| < 2 then s
    else if s[0] == '\\' && s[1] == '$' then "$$" + Unescape(s[2..])
    else [s[0]] + Unescape(s[1..])
  }

  // The scan of the template pattern: `$$`, `$name`, `${name}`, or a dollar sign left as it is.
  function Tokens(s: string): seq<Token>
    decreases |s|
  {
    if s == "" then []
    else if s[0] != '$' then [Literal(s[0])] + Tokens(s[1..])
    else if |s| > 1 && s[1] == '$' then [Literal('$')] + Tokens(s[2..])
    else if |s| > 1 && IdStart(s[1]) then
      var j := IdEnd(s, 1);
      assert j > 1;
      [Reference(s[1..j])] + Tokens(s[j..])
    else if |s| > 2 && s[1] == '{' && IdStart(s[2]) && IdEnd(s, 2) < |s| && s[IdEnd(s, 2)] == '}' then
      var j := IdEnd(s, 2);
      [Reference(s[2..j])] + Tokens(s[j + 1..])
    else [Literal('$')] + Tokens(s[1..])
  }

  function TokensOf(s: string): seq<Token> {
    Tokens(Unescape(s))
  }

  function Literals(s: string): (ts: seq<Token>)
    ensures |ts| == |s|
  {
    seq(|s|, i requires 0 <= i < |s| => Literal(s[i]))
  }

  predicate Plain(s: string) {
    '$' !in s
  }

  lemma {:induction false} UnescapePlain(s: string)
    requires Plain(s)
    ensures Unescape(s) == s
    decreases |s|
  {
    if |s| >= 2 {
      UnescapePlain(s[1..]);
    }
  }

  // A text without dollar signs stands for itself.
  lemma {:induction false} TokensPlain(s: string)
    requires Plain(s)
    ensures TokensOf(s) == Literals(s)
    decreases |s|
  {
    UnescapePlain(s);
    if s != "" {
      TokensPlain(s[1..]);
      UnescapePlain(s[1..]);
      assert Literals(s) == [Literal(s[0])] + Literals(s[1..]);
    }
  }

  // The documented way to write a text so that substitution gives it back.
  function Escape(s: string): string {
    if s == "" then "" else if s[0] == '$' then "\\$" + Escape(s[1..]) else [s[0]] + Escape(s[1..])
  }

  function DoubleDollars(s: string): string {
    if s == "" then "" else if s[0] == '$' then "$$" + DoubleDollars(s[1..]) else [s[0]] + DoubleDollars(s[1..])
  }

  lemma {:induction false} DoubledTokens(s: string)
    ensures Tokens(DoubleDollars(s)) == Literals(s)
    decreases |s|
  {
    if s != "" {
      DoubledTokens(s[1..]);
      var t := DoubleDollars(s);
      if s[0] == '$' {
        assert t[2..] == DoubleDollars(s[1..]);
      } else {
        assert t[1..] == DoubleDollars(s[1..]);
      }
      assert Literals(s) == [Literal(s[0])] + Literals(s[1..]);
    }
  }

  predicate NoBackslashDollar(s: string) {
    forall i :: 0 < i < |s| && s[i] == '$' ==> s[i - 1] != '\\'
  }

  lemma {:induction false} UnescapeEscape(s: string)
    requires NoBackslashDollar(s)
    ensures Unescape(Escape(s)) == DoubleDollars(s)
    decreases |s|
  {
    if s != "" {
      var rest := s[1..];
      assert forall i :: 0 < i < |rest| ==> rest[i] == s[i + 1] && rest[i - 1] == s[i];
      UnescapeEscape(rest);
      var t := Escape(s);
      if s[0] == '$' {
        assert t[2..] == Escape(rest);
      } else {
        assert t[1..] == Escape(rest);
        if rest != "" && s[0] == '\\' {
          assert s[1] != '$';
          assert Escape(rest)[0] == rest[0];
        }
      }
    }
  }

  // Escaped text has no references and stands for the text it was made from.
  lemma EscapeRoundTrip(s: string)
    requires NoBackslashDollar(s)
    ensures TokensOf(Escape(s)) == Literals(s)
  {
    UnescapeEscape(s);
    DoubledTokens(s);
  }

  // A letter or underscore, and then letters, digits, underscores and dots.
  predicate Identifier(s: string) {
    && s != "" && ('a' <= s[0] <= 'z' || 'A' <= s[0] <= 'Z' || s[0] == '_')
    && forall i :: 0 <= i < |s| ==> InName(s[i])
  }

  predicate InName(c: char) {
    'a' <= c <= 'z' || 'A' <= c <= 'Z' || '0' <= c <= '9' || c == '_' || c == '.'
  }

  lemma {:induction false} WholeIdentifier(s: string, i: nat)
    requires i <= |s| && forall j :: i <= j < |s| ==> IdChar(s[j])
    ensures IdEnd(s, i) == |s|
    decreases |s| - i
  {
    if i < |s| {
      WholeIdentifier(s, i + 1);
    }
  }

  lemma {:induction false} NothingToUnescape(s: string)
    requires '\\' !in s
    ensures Unescape(s) == s
    decreases |s|
  {
    if |s| >= 2 {
      NothingToUnescape(s[1..]);
    }
  }

  lemma {:induction false} IdentifierEnds(s: string, i: nat, n: nat)
    requires i <= n < |s| && (forall j :: i <= j < n ==> IdChar(s[j])) && !IdChar(s[n])
    ensures IdEnd(s, i) == n
    decreases n - i
  {
    if i < n {
      IdentifierEnds(s, i + 1, n);
    }
  }

  lemma {:induction false} UnescapeAfter(a: string, b: string)
    requires '\\' !in a
    ensures Unescape(a + b) == a + Unescape(b)
    decreases |a|
  {
    if a == "" {
      assert a + b == b;
    } else {
      UnescapeAfter(a[1..], b);
      UnescapeOne(a[0], a[1..] + b);
      assert a + b == [a[0]] + (a[1..] + b);
      assert [a[0]] + (a[1..] + Unescape(b)) == a + Unescape(b);
    }
  }

  lemma UnescapeOne(c: char, s: string)
    requires c != '\\'
    ensures Unescape([c] + s) == [c] + Unescape(s)
  {
    var t := [c] + s;
    assert t[1..] == s && t[0] == c;
    if s == "" {
      assert t == [c];
    }
  }

  // What the escape leaves at the front of a text.
  lemma UnescapeFirst(s: string)
    ensures s == "" <==> Unescape(s) == ""
    ensures s != "" ==> Unescape(s)[0] == if |s| > 1 && s[0] == '\\' && s[1] == '$' then '$' else s[0]
  {
  }

  /** `$name` is a reference to the longest name that follows the dollar sign. */
  lemma LongestName(name: string, after: string)
    requires Identifier(name) && (after != "" ==> !InName(after[0]))
    ensures TokensOf("$" + name + after) == [Reference(name)] + TokensOf(after)
  {
    var s, rest := "$" + name + Unescape(after), Unescape(after);
    assert "$" + name + after == ("$" + name) + after;
    UnescapeAfter("$" + name, after);
    UnescapeFirst(after);
    var n := |name| + 1;
    assert forall j :: 1 <= j < n ==> s[j] == name[j - 1];
    if rest == "" {
      WholeIdentifier(s, 1);
    } else {
      assert s[n] == rest[0];
      IdentifierEnds(s, 1, n);
    }
    assert s[1..n] == name && s[n..] == rest;
    assert s[0] == '$' && IdStart(s[1]) && s[1] != '$';
  }

  /** `${name}` is a reference whatever follows it. */
  lemma BracedName(name: string, after: string)
    requires Identifier(name)
    ensures TokensOf("${" + name + "}" + after) == [Reference(name)] + TokensOf(after)
  {
    var s, rest := "${" + name + "}" + Unescape(after), Unescape(after);
    assert "${" + name + "}" + after == ("${" + name + "}") + after;
    UnescapeAfter("${" + name + "}", after);
    var n := |name| + 2;
    assert forall j :: 2 <= j < n ==> s[j] == name[j - 2];
    assert s[n] == '}' && s[0] == '$' && s[1] == '{';
    IdentifierEnds(s, 2, n);
    assert s[2..n] == name && s[n + 1..] == rest;
    assert IdStart(s[2]) && !IdStart(s[1]);
  }

  /** Both ways to write a dollar sign stand for one. */
  lemma WrittenDollar(after: string)
    ensures TokensOf("$$" + after) == [Literal('$')] + TokensOf(after)
    ensures TokensOf("\\$" + after) == [Literal('$')] + TokensOf(after)
  {
    UnescapeAfter("$$", after);
    var t := "\\$" + after;
    assert t[0] == '\\' && t[1] == '$' && t[2..] == after;
    assert ("$$" + Unescape(after))[2..] == Unescape(after);
  }

  /** A dollar sign that no name, brace or other dollar sign follows stands for itself. */
  lemma LoneDollar(after: string)
    requires after != "" ==>
      && !('a' <= after[0] <= 'z' || 'A' <= after[0] <= 'Z' || after[0] == '_' || after[0] == '$' || after[0] == '{')
      && !(|after| > 1 && after[0] == '\\' && after[1] == '$')
    ensures TokensOf("$" + after) == [Literal('$')] + TokensOf(after)
  {
    UnescapeAfter("$", after);
    UnescapeFirst(after);
    var s := "$" + Unescape(after);
    assert s[0] == '$' && s[1..] == Unescape(after);
    if after != "" {
      assert s[1] == after[0];
    }
  }

  /** So does one before a brace that does not enclose a name. */
  lemma DollarBrace(word: string, after: string)
    requires forall c :: c in word ==> InName(c)
    requires word == "" || !Identifier(word) || after == "" || after[0] != '}'
    requires after != "" ==> !InName(after[0]) && !(|after| > 1 && after[0] == '\\' && after[1] == '$')
    ensures TokensOf("${" + word + after) == [Literal('$')] + TokensOf("{" + word + after)
  {
    var rest := "{" + word + after;
    assert "${" + word + after == "$" + rest;
    UnescapeAfter("$", rest);
    UnescapeAfter("{" + word, after);
    assert rest == ("{" + word) + after;
    var s, n := "$" + Unescape(rest), |word| + 2;
    assert s == "$" + ("{" + word + Unescape(after)) && s[1..] == Unescape(rest);
    assert s[0] == '$' && s[1] == '{' && (forall j :: 2 <= j < n ==> s[j] == word[j - 2]);
    UnescapeFirst(after);
    forall j | 2 <= j < n ensures IdChar(s[j]) {
      assert word[j - 2] in word;
    }
    if |s| > 2 && IdStart(s[2]) && word != "" {
      if after == "" {
        WholeIdentifier(s, 2);
      } else {
        assert s[n] == after[0];
        IdentifierEnds(s, 2, n);
        assert Identifier(word);
      }
    } else if word == "" && after != "" {
      assert s[2] == after[0];
    }
  }

  /** Every other character stands for itself. */
  lemma OtherCharacter(c: char, after: string)
    requires c != '$' && !(c == '\\' && after != "" && after[0] == '$')
    ensures TokensOf([c] + after) == [Literal(c)] + TokensOf(after)
  {
    var s := [c] + after;
    assert s[1..] == after;
    if |s| < 2 {
      assert after == "" && Unescape(after) == "";
    }
    assert ([c] + Unescape(after))[1..] == Unescape(after);
    assert Unescape(s) == [c] + Unescape(after);
  }

  // `$name` is one reference.
  lemma OneReference(name: string)
    requires Identifier(name)
    ensures TokensOf("$" + name) == [Reference(name)]
  {
    LongestName(name, "");
    assert "$" + name + "" == "$" + name;
    assert TokensOf("") == [];
  }

  // `${name}` is one reference, as `$name` is.
  lemma BracedReference(name: string)
    requires Identifier(name)
    ensures TokensOf("${" + name + "}") == [Reference(name)]
  {
    BracedName(name, "");
    assert "${" + name + "}" + "" == "${" + name + "}";
    assert TokensOf("") == [];
  }
}
