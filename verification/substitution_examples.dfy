/**
 * Concrete shapes of input for `substituteVariables`: two tokens around plain text,
 * and the input that shows the substitution is single-pass rather than idempotent.
 */
module SubstitutionExamples {
  import opened Text
  import opened Substitution

  /** `{{{{name}}}}`: a token inside a second pair of braces. */
  function Wrapped(name: string): string {
    "{" + ("{" + (Token(name) + "}}"))
  }

  /** A token wrapped in a second pair of braces: the outer braces are copied and the
      inner token is replaced. */
  lemma WrappedToken(n: string, vars: Vars)
    requires IsWord(n)
    ensures Substitute(Wrapped(n), vars) == "{" + ("{" + (Replacement(n, vars) + "}}"))
  {
    var t := Token(n);
    var s2 := t + "}}";
    var s1 := "{" + s2;
    var s := "{" + s1;
    assert t[0] == '{';
    assert s1[2] == t[0] && s[2] == t[0];
    NoNameAfterBraces(s);
    NoNameAfterBraces(s1);
    assert s[1..] == s1 && s1[1..] == s2;
    SubstituteCopy(s, vars);
    SubstituteCopy(s1, vars);
    SubstituteToken(n, "}}", vars);
    ClosingCopied(vars);
  }

  lemma Rebrace(a: string)
    ensures "{" + ("{" + (a + "}}")) == Token(a)
  {
    assert "{" + ("{" + (a + "}}")) == "{{" + (a + "}}");
  }

  lemma ClosingCopied(vars: Vars)
    ensures Substitute("}}", vars) == "}}"
  {
    SubstitutePlain("}}", "", vars);
    assert "}}" + "" == "}}";
  }

  lemma NoNameAfterBraces(s: string)
    requires |s| > 2 && s[2] == '{'
    ensures TokenAt(s).None?
  {
    assert s[2..][0] == '{';
    assert !IsWordChar('{');
  }

  /** The scan is single-pass, so substitution is not idempotent even when no value
      holds a token: with `x` bound to `a` and `a` bound to `b`, `{{{{x}}}}` becomes
      `{{a}}`, which a second pass turns into `b` (for example `{{{{X}}}}` with `X`
      bound to `A` and `A` to `B`). */
  lemma NotIdempotent(x: string, a: string, b: string, vars: Vars)
    requires IsWord(x) && IsWord(a)
    requires x in vars && vars[x] == a && a in vars && vars[a] == b
    ensures Substitute(Wrapped(x), vars) == Token(a)
    ensures Substitute(Token(a), vars) == b
    ensures b != Token(a) ==> Substitute(Substitute(Wrapped(x), vars), vars) != Substitute(Wrapped(x), vars)
  {
    WrappedToken(x, vars);
    assert Replacement(x, vars) == a;
    Rebrace(a);
    SubstituteToken(a, "", vars);
    assert Token(a) + "" == Token(a);
    assert Substitute("", vars) == "";
  }

  /** Two tokens around text without a brace are both resolved. */
  lemma TwoTokens(a: string, mid: string, b: string, vars: Vars)
    requires IsWord(a) && IsWord(b)
    requires forall i | 0 <= i < |mid| :: mid[i] != '{'
    ensures Substitute(Token(a) + mid + Token(b), vars) == Replacement(a, vars) + mid + Replacement(b, vars)
  {
    SubstituteToken(b, [], vars);
    assert Token(b) + [] == Token(b);
    SubstitutePlain(mid, Token(b), vars);
    SubstituteToken(a, mid + Token(b), vars);
    Assoc3(Token(a), mid, Token(b));
    Assoc3(Replacement(a, vars), mid, Replacement(b, vars));
  }
}
