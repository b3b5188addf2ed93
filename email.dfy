/** The e-mail validator of utils/email.ts: the anchored regular expression
    `^[^\s@]+@[^\s@]+\.[^\s@]+$` tested against the whole input. */
module Email {
  import opened Js

  /** A character of the class `[^\s@]`. */
  predicate IsAtom(c: char) {
    c != '@' && !IsSpace(c)
  }

  predicate AllAtoms(s: string) {
    forall i :: 0 <= i < |s| ==> IsAtom(s[i])
  }

  /** The language of the regular expression: three non-empty runs of `[^\s@]`
      separated by a literal '@' and a literal '.'. */
  ghost predicate MatchesRegex(s: string) {
    exists local, host, tld {:trigger AllAtoms(local), AllAtoms(host), AllAtoms(tld)} ::
      && s == local + "@" + host + "." + tld
      && |local| > 0 && |host| > 0 && |tld| > 0
      && AllAtoms(local) && AllAtoms(host) && AllAtoms(tld)
  }

  /** Index of the first occurrence of c in s. */
  function IndexOf(s: string, c: char): (r: Option<nat>)
    ensures r.None? <==> c !in s
    ensures r.Some? ==> r.value < |s| && s[r.value] == c && c !in s[..r.value]
  {
    if s == [] then None
    else if s[0] == c then Some(0)
    else match IndexOf(s[1..], c)
      case None => None
      case Some(k) =>
        assert s[1..][..k] == s[1..k + 1];
        Some(k + 1)
  }

  /** IndexOf finds the first occurrence. */
  lemma {:induction false} IndexOfIsFirst(s: string, c: char, k: nat)
    requires k < |s| && s[k] == c && c !in s[..k]
    ensures IndexOf(s, c) == Some(k)
  {
    if k > 0 {
      assert s[0] == s[..k][0];
      assert s[1..][..k - 1] == s[1..k];
      IndexOfIsFirst(s[1..], c, k - 1);
    }
  }

  /** The part after '@': runs of `[^\s@]` with a '.' that is neither first nor last. */
  predicate ValidDomain(d: string) {
    AllAtoms(d) && exists i :: 0 < i < |d| - 1 && d[i] == '.'
  }

  /** `isValidEmail(email)`: `regexEmail.test(email)`. */
  predicate IsValidEmail(s: string) {
    match IndexOf(s, '@')
    case None => false
    case Some(k) => 0 < k && AllAtoms(s[..k]) && ValidDomain(s[k + 1..])
  }

  lemma AllAtomsConcat(a: string, b: string)
    ensures AllAtoms(a + b) <==> AllAtoms(a) && AllAtoms(b)
  {
    if AllAtoms(a + b) {
      forall i | 0 <= i < |a| ensures IsAtom(a[i]) {
        assert a[i] == (a + b)[i];
      }
      forall i | 0 <= i < |b| ensures IsAtom(b[i]) {
        assert b[i] == (a + b)[|a| + i];
      }
    }
  }

  lemma AtomsHaveNoAt(s: string)
    requires AllAtoms(s)
    ensures '@' !in s
  {
    forall i | 0 <= i < |s| ensures s[i] != '@' {
      assert IsAtom(s[i]);
    }
  }

  /** Every accepted address is a word of the regular expression. */
  lemma ValidMatchesRegex(s: string)
    requires IsValidEmail(s)
    ensures MatchesRegex(s)
  {
    var k := IndexOf(s, '@').value;
    var d := s[k + 1..];
    var i :| 0 < i < |d| - 1 && d[i] == '.';
    var local, host, tld := s[..k], d[..i], d[i + 1..];
    assert d == host + "." + tld;
    AllAtomsConcat(host, "." + tld);
    AllAtomsConcat(".", tld);
    assert s == local + "@" + host + "." + tld by {
      assert s == local + "@" + d;
    }
  }

  /** Every word of the regular expression is accepted. */
  lemma RegexMatchIsValid(s: string)
    requires MatchesRegex(s)
    ensures IsValidEmail(s)
  {
    var local, host, tld :| && s == local + "@" + host + "." + tld
                            && |local| > 0 && |host| > 0 && |tld| > 0
                            && AllAtoms(local) && AllAtoms(host) && AllAtoms(tld);
    var d := host + "." + tld;
    assert s == local + "@" + d;
    AtomsHaveNoAt(local);
    assert s[..|local|] == local;
    assert IndexOf(s, '@') == Some(|local|) by {
      assert s[|local|] == '@';
      IndexOfIsFirst(s, '@', |local|);
    }
    assert s[|local| + 1..] == d;
    AllAtomsConcat(host, "." + tld);
    AllAtomsConcat(".", tld);
    assert d[|host|] == '.';
  }

  /** The validator accepts exactly the language of the regular expression. */
  lemma IsValidEmailMatchesRegex(s: string)
    ensures IsValidEmail(s) <==> MatchesRegex(s)
  {
    if IsValidEmail(s) {
      ValidMatchesRegex(s);
    }
    if MatchesRegex(s) {
      RegexMatchIsValid(s);
    }
  }

  /** An accepted address contains exactly one '@'. */
  lemma ValidHasOneAt(s: string)
    requires IsValidEmail(s)
    ensures multiset(s)['@'] == 1
  {
    var k := IndexOf(s, '@').value;
    var d := s[k + 1..];
    assert s == s[..k] + [s[k]] + d;
    AtomsHaveNoAt(d);
    assert multiset(s) == multiset(s[..k]) + multiset{'@'} + multiset(d);
  }

  /** An accepted address has no whitespace and a non-empty part before its '@'. */
  lemma ValidHasNoSpaceAndNonEmptyLocalPart(s: string)
    requires IsValidEmail(s)
    ensures forall i :: 0 <= i < |s| ==> !IsSpace(s[i])
    ensures 0 < |s| && s[0] != '@'
  {
    var k := IndexOf(s, '@').value;
    var d := s[k + 1..];
    forall i | 0 <= i < |s| ensures !IsSpace(s[i]) {
      if i < k {
        assert s[i] == s[..k][i];
      } else if i > k {
        assert s[i] == d[i - k - 1];
      }
    }
  }

  /** The empty input and the boundary cases of the domain rule. */
  lemma RejectedExamples()
    ensures !IsValidEmail("")
    ensures !IsValidEmail("a@b")
    ensures !IsValidEmail("a@.b")
  {
    assert IndexOf("a@b", '@') == Some(1);
    assert IndexOf("a@.b", '@') == Some(1);
    assert "a@.b"[2..] == ".b";
  }

  /** A domain may hold several dots. */
  lemma AcceptedExample()
    ensures IsValidEmail("a@b.c.d")
  {
    assert IndexOf("a@b.c.d", '@') == Some(1);
    var d := "a@b.c.d"[2..];
    assert d == "b.c.d" && d[1] == '.';
    assert AllAtoms("a");
    assert AllAtoms(d);
  }
}
