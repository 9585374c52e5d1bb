// What the scanner takes from Go's strings package.
module Text {
  // unicode.IsSpace
  predicate IsSpace(c: char) {
    || '\t' <= c <= '\r' || c == ' ' || c == '\U{85}' || c == '\U{A0}' || c == '\U{1680}'
    || '\U{2000}' <= c <= '\U{200A}' || c == '\U{2028}' || c == '\U{2029}' || c == '\U{202F}'
    || c == '\U{205F}' || c == '\U{3000}'
  }

  // strings.TrimSpace
  function TrimSpace(s: string): string
    decreases |s|
  {
    if s == [] then s
    else if IsSpace(s[0]) then TrimSpace(s[1..])
    else if IsSpace(s[|s| - 1]) then TrimSpace(s[..|s| - 1])
    else s
  }

  // The part from i to j is what remains: nothing but space lies outside it, and it neither
  // begins nor ends with space.
  ghost predicate IsTrimmed(s: string, i: nat, j: nat) {
    && i <= j <= |s|
    && (forall k :: 0 <= k < i || j <= k < |s| ==> IsSpace(s[k]))
    && (i < j ==> !IsSpace(s[i]) && !IsSpace(s[j - 1]))
  }

  lemma {:induction false} TrimSpaceCutsSpace(s: string) returns (i: nat, j: nat)
    ensures IsTrimmed(s, i, j) && TrimSpace(s) == s[i..j]
    decreases |s|
  {
    i, j := 0, |s|;
    if s != [] && IsSpace(s[0]) {
      i, j := TrimSpaceCutsSpace(s[1..]);
      SkipLead(s, i, j);
      i, j := i + 1, j + 1;
    } else if s != [] && IsSpace(s[|s| - 1]) {
      i, j := TrimSpaceCutsSpace(s[..|s| - 1]);
      SkipTrail(s, i, j);
    }
  }

  lemma SkipLead(s: string, i: nat, j: nat)
    requires s != [] && IsSpace(s[0]) && IsTrimmed(s[1..], i, j)
    ensures IsTrimmed(s, i + 1, j + 1) && s[1..][i..j] == s[i + 1..j + 1]
  {
    var t := s[1..];
    assert forall k :: 0 <= k < |t| ==> t[k] == s[k + 1];
    forall k | 0 <= k < i + 1 || j + 1 <= k < |s|
      ensures IsSpace(s[k])
    {
      if k > 0 {
        assert IsSpace(t[k - 1]);
      }
    }
  }

  lemma SkipTrail(s: string, i: nat, j: nat)
    requires s != [] && IsSpace(s[|s| - 1]) && IsTrimmed(s[..|s| - 1], i, j)
    ensures IsTrimmed(s, i, j) && s[..|s| - 1][i..j] == s[i..j]
  {
    var t := s[..|s| - 1];
    assert forall k :: 0 <= k < |t| ==> t[k] == s[k];
    forall k | 0 <= k < i || j <= k < |s|
      ensures IsSpace(s[k])
    {
      if k < |t| {
        assert IsSpace(t[k]);
      }
    }
  }

  predicate IsBlank(s: string) {
    forall k :: 0 <= k < |s| ==> IsSpace(s[k])
  }

  lemma TrimmedPart(s: string)
    ensures exists i: nat, j: nat :: IsTrimmed(s, i, j) && TrimSpace(s) == s[i..j]
    ensures TrimSpace(s) == "" <==> IsBlank(s)
  {
    var i, j := TrimSpaceCutsSpace(s);
  }

  // The characters of Unicode's White_Space property.
  const WHITE_SPACE := "\t\n\U{0B}\U{0C}\r \U{85}\U{A0}\U{1680}\U{2000}\U{2001}\U{2002}\U{2003}\U{2004}"
    + "\U{2005}\U{2006}\U{2007}\U{2008}\U{2009}\U{200A}\U{2028}\U{2029}\U{202F}\U{205F}\U{3000}"

  lemma SpaceCharacters(c: char)
    ensures IsSpace(c) <==> c in WHITE_SPACE
  {
  }

  // A text has only one trimmed part, unless it is blank.
  lemma TrimmedIsUnique(s: string, i: nat, j: nat, k: nat, l: nat)
    requires IsTrimmed(s, i, j) && IsTrimmed(s, k, l)
    ensures s[i..j] == s[k..l]
  {
    assert (i < j ==> !IsSpace(s[i])) && (i == j ==> IsBlank(s));
    assert (k < l ==> !IsSpace(s[k])) && (k == l ==> IsBlank(s));
    if i < j {
      assert !IsSpace(s[j - 1]) && !IsSpace(s[l - 1]);
    }
  }
}
