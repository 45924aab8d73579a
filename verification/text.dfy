/** The part of Python's string handling the model needs: `str.capitalize`, with the
    ASCII case mapping. */
module Text {

  predicate IsUpper(c: char) {
    'A' <= c <= 'Z'
  }

  predicate IsLower(c: char) {
    'a' <= c <= 'z'
  }

  function ToUpper(c: char): char {
    if IsLower(c) then (c as int - 32) as char else c
  }

  function ToLower(c: char): char {
    if IsUpper(c) then (c as int + 32) as char else c
  }

  /** Two strings that differ at most in the case of their letters. */
  predicate EqualIgnoringCase(a: string, b: string) {
    |a| == |b| && forall i :: 0 <= i < |a| ==> ToLower(a[i]) == ToLower(b[i])
  }

  function LowerAll(s: string): (r: string)
    ensures |r| == |s|
    ensures forall i :: 0 <= i < |s| ==> r[i] == ToLower(s[i])
  {
    seq(|s|, i requires 0 <= i < |s| => ToLower(s[i]))
  }

  /** `s.capitalize()`: the same letters as `s`, the first one not lower case and every
      later one not upper case. */
  function Capitalize(s: string): (r: string)
    ensures EqualIgnoringCase(r, s)
    ensures |r| > 0 ==> !IsLower(r[0])
    ensures forall i :: 1 <= i < |r| ==> !IsUpper(r[i])
  {
    if |s| == 0 then "" else [ToUpper(s[0])] + LowerAll(s[1..])
  }

  /** The three properties in Capitalize's contract pin its result down completely. */
  lemma CapitalizeUnique(s: string, t: string)
    requires EqualIgnoringCase(t, s)
    requires |t| > 0 ==> !IsLower(t[0])
    requires forall i :: 1 <= i < |t| ==> !IsUpper(t[i])
    ensures t == Capitalize(s)
  {
    var c := Capitalize(s);
    forall i | 0 <= i < |t|
      ensures t[i] == c[i]
    {
      assert ToLower(t[i]) == ToLower(c[i]);
    }
  }

  /** Two spellings are capitalized alike exactly when they agree up to letter case;
      so "maximize", "MAXIMIZE" and "Maximize" all become "Maximize". */
  lemma CapitalizeAgreesIffEqualIgnoringCase(s: string, t: string)
    ensures Capitalize(s) == Capitalize(t) <==> EqualIgnoringCase(s, t)
  {
    var cs, ct := Capitalize(s), Capitalize(t);
    if cs == ct {
      assert |s| == |t|;
      forall i | 0 <= i < |s|
        ensures ToLower(s[i]) == ToLower(t[i])
      {
        assert ToLower(cs[i]) == ToLower(s[i]);
        assert ToLower(ct[i]) == ToLower(t[i]);
      }
    }
    if EqualIgnoringCase(s, t) {
      assert EqualIgnoringCase(cs, t);
      CapitalizeUnique(t, cs);
    }
  }

  /** Capitalizing twice is capitalizing once. */
  lemma CapitalizeIdempotent(s: string)
    ensures Capitalize(Capitalize(s)) == Capitalize(s)
  {
    CapitalizeUnique(Capitalize(s), Capitalize(s));
  }
}
