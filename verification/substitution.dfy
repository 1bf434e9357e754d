/**
 * `substituteVariables`: `content.replace(/\{\{(\w+)\}\}/g, (m, name) => vars[name] ?? m)`.
 *
 * The global replace scans left to right. At each position it either matches a token
 * `{{name}}` — `name` a non-empty run of word characters, which is maximal because `}`
 * is not a word character — and continues after it, or copies one character and
 * moves on. A token is replaced by the value bound to its name, or kept verbatim.
 */
module Substitution {
  import opened Wrappers
  import opened Text

  /** The variables: names bound to replacement texts. */
  type Vars = map<string, string>

  /** The text of the token for `name`. */
  function Token(name: string): string {
    "{{" + name + "}}"
  }

  /** The name of the token `s` starts with, if it starts with one. */
  function TokenAt(s: string): (r: Option<string>)
    ensures r.Some? ==> IsWord(r.value) && |Token(r.value)| <= |s| && s[..|Token(r.value)|] == Token(r.value)
  {
    if |s| >= 2 && s[0] == '{' && s[1] == '{' then
      var n := Span(s[2..], IsWordChar);
      if n > 0 && n + 4 <= |s| && s[n + 2] == '}' && s[n + 3] == '}' then
        assert s[..n + 4] == "{{" + s[2..n + 2] + "}}";
        Some(s[2..n + 2])
      else
        None
    else
      None
  }

  /** A text that starts with a token is recognised as starting with that token. */
  lemma TokenAtToken(name: string, rest: string)
    requires IsWord(name)
    ensures TokenAt(Token(name) + rest) == Some(name)
  {
    var s := Token(name) + rest;
    assert s[2..] == name + ("}}" + rest);
    SpanConcat(name, "}}" + rest, IsWordChar);
    assert s[2..|name| + 2] == name;
  }

  /** The text a token is replaced by. */
  function Replacement(name: string, vars: Vars): string {
    if name in vars then vars[name] else Token(name)
  }

  /** `substituteVariables(s, vars)`. */
  function Substitute(s: string, vars: Vars): string
    decreases |s|
  {
    if s == [] then []
    else
      match TokenAt(s)
      case Some(name) => Replacement(name, vars) + Substitute(s[|Token(name)|..], vars)
      case None => [s[0]] + Substitute(s[1..], vars)
  }

  /** A token is replaced by its binding, or kept with its braces when its name is
      unbound, and the scan resumes after the token: the replacement text is never
      scanned again. */
  lemma SubstituteToken(name: string, rest: string, vars: Vars)
    requires IsWord(name)
    ensures Substitute(Token(name) + rest, vars) == Replacement(name, vars) + Substitute(rest, vars)
  {
    TokenAtToken(name, rest);
    assert (Token(name) + rest)[|Token(name)|..] == rest;
  }

  /** Where no token starts, the first character is copied and the scan moves on. */
  lemma SubstituteCopy(s: string, vars: Vars)
    requires s != [] && TokenAt(s).None?
    ensures Substitute(s, vars) == [s[0]] + Substitute(s[1..], vars)
  {
  }

  /** Text without a `{` is copied unchanged, and the scan continues after it. */
  lemma {:induction false} SubstitutePlain(p: string, s: string, vars: Vars)
    requires forall i | 0 <= i < |p| :: p[i] != '{'
    ensures Substitute(p + s, vars) == p + Substitute(s, vars)
    decreases |p|
  {
    if p != [] {
      var t := p + s;
      assert t[0] == p[0] && t[1..] == p[1..] + s;
      SubstituteCopy(t, vars);
      SubstitutePlain(p[1..], s, vars);
      Assoc3([p[0]], p[1..], Substitute(s, vars));
      assert [p[0]] + p[1..] == p;
    } else {
      assert p + s == s;
    }
  }

  /** No token starts anywhere in `s`. */
  predicate NoTokens(s: string) {
    forall i | 0 <= i < |s| :: TokenAt(s[i..]).None?
  }

  /** Text without a token is returned unchanged, whatever the variables. */
  lemma {:induction false} SubstituteNoTokens(s: string, vars: Vars)
    requires NoTokens(s)
    ensures Substitute(s, vars) == s
    decreases |s|
  {
    if s != [] {
      assert TokenAt(s[0..]).None?;
      assert s[0..] == s;
      assert NoTokens(s[1..]) by {
        forall i | 0 <= i < |s[1..]| ensures TokenAt(s[1..][i..]).None? {
          assert s[1..][i..] == s[i + 1..];
        }
      }
      SubstituteNoTokens(s[1..], vars);
      assert [s[0]] + s[1..] == s;
    }
  }

  /** When every bound name is bound to its own token, substitution is the identity;
      in particular the empty map changes nothing. */
  lemma {:induction false} SubstituteSelfBound(s: string, vars: Vars)
    requires forall n | n in vars :: vars[n] == Token(n)
    ensures Substitute(s, vars) == s
    decreases |s|
  {
    if s != [] {
      match TokenAt(s)
      case Some(name) =>
        var k := |Token(name)|;
        SubstituteSelfBound(s[k..], vars);
        assert s[..k] + s[k..] == s;
      case None =>
        SubstituteSelfBound(s[1..], vars);
        assert [s[0]] + s[1..] == s;
    }
  }

  lemma SubstituteEmptyMap(s: string)
    ensures Substitute(s, map[]) == s
  {
    SubstituteSelfBound(s, map[]);
  }
}
