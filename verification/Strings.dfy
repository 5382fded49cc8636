/** How the source compares and trims strings. */
module Strings {
  /** s.trim() === '', over the ASCII white space. */
  predicate Blank(s: string) { forall i :: 0 <= i < |s| ==> s[i] in " \t\n\r" }

  predicate IsSpace(c: char) { c in " \t\n\r" }

  /** s.trim() */
  function Trim(s: string): string {
    if s == "" then ""
    else if IsSpace(s[0]) then Trim(s[1..])
    else if IsSpace(s[|s| - 1]) then Trim(s[..|s| - 1])
    else s
  }

  /** Blank is the test made on the trimmed text. */
  lemma {:induction false} BlankTrimsToNothing(s: string)
    ensures Blank(s) <==> Trim(s) == ""
    decreases |s|
  {
    if s != "" {
      if IsSpace(s[0]) {
        BlankTrimsToNothing(s[1..]);
        assert s == [s[0]] + s[1..];
      } else if IsSpace(s[|s| - 1]) {
        BlankTrimsToNothing(s[..|s| - 1]);
      }
    }
  }

  /** toLowerCase, over ASCII. */
  function Lower(s: string): string {
    seq(|s|, i requires 0 <= i < |s| => if 'A' <= s[i] <= 'Z' then s[i] - 'A' + 'a' else s[i])
  }

  /** `s < t`: by code unit, a proper prefix first. */
  predicate Less(s: string, t: string) {
    |t| > 0 && (|s| == 0 || s[0] < t[0] || (s[0] == t[0] && Less(s[1..], t[1..])))
  }

  lemma {:induction false} LessIsTotal(s: string, t: string)
    ensures !(Less(s, t) && Less(t, s))
    ensures Less(s, t) || Less(t, s) || s == t
    ensures Less(s, t) ==> s != t
  {
    if |s| > 0 && |t| > 0 && s[0] == t[0] {
      LessIsTotal(s[1..], t[1..]);
      if s[1..] == t[1..] {
        assert s == [s[0]] + s[1..] && t == [t[0]] + t[1..];
      }
    }
  }

  lemma {:induction false} LessIsTransitive(s: string, t: string, u: string)
    requires Less(s, t) && Less(t, u)
    ensures Less(s, u)
  {
    if |s| > 0 && s[0] == t[0] == u[0] {
      LessIsTransitive(s[1..], t[1..], u[1..]);
    }
  }

  /** The first difference decides. */
  lemma {:induction false} FirstDifferenceDecides(s: string, t: string, k: nat)
    requires k < |s| && k < |t| && s[..k] == t[..k] && s[k] < t[k]
    ensures Less(s, t)
  {
    if k > 0 {
      assert s[0] == s[..k][0] == t[..k][0] == t[0];
      assert s[1..][..k - 1] == s[..k][1..] && t[1..][..k - 1] == t[..k][1..];
      FirstDifferenceDecides(s[1..], t[1..], k - 1);
    }
  }
}
