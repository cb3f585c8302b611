/**
 * Lower case for ASCII letters. It shows that what the tab marks rely on of `toLowerCase` can be had:
 * it commutes with the way the settings service reads network names.
 */
module AsciiFolding {
  import opened Text
  import opened ChannelTabs

  function AsciiLower(s: string): (l: string)
    ensures |l| == |s|
    ensures forall i :: 0 <= i < |s| ==> l[i] == LowerChar(s[i])
  {
    seq(|s|, i requires 0 <= i < |s| => LowerChar(s[i]))
  }

  lemma LowerSlice(s: string, i: nat, j: nat)
    requires i <= j <= |s|
    ensures AsciiLower(s[i..j]) == AsciiLower(s)[i..j]
  {
  }

  lemma {:induction false} LowerRunLength(s: string, space: bool)
    ensures RunLength(AsciiLower(s), space) == RunLength(s, space)
  {
    if s != "" && IsSpace(s[0]) == space {
      LowerRunLength(s[1..], space);
      LowerSlice(s, 1, |s|);
      assert AsciiLower(s)[1..] == AsciiLower(s[1..]);
    }
  }

  lemma {:induction false} LowerTrimRight(s: string)
    ensures TrimRight(AsciiLower(s)) == AsciiLower(TrimRight(s))
  {
    if s != "" && IsSpace(s[|s| - 1]) {
      LowerTrimRight(s[..|s| - 1]);
      LowerSlice(s, 0, |s| - 1);
      assert AsciiLower(s)[..|s| - 1] == AsciiLower(s[..|s| - 1]);
    }
  }

  lemma LowerTrim(s: string)
    ensures Trim(AsciiLower(s)) == AsciiLower(Trim(s))
  {
    var n := RunLength(s, true);
    LowerRunLength(s, true);
    LowerSlice(s, n, |s|);
    assert AsciiLower(s)[n..] == AsciiLower(s[n..]);
    LowerTrimRight(s[n..]);
  }

  lemma {:induction false} LowerDigitsStart(s: string, end: nat)
    requires end <= |s|
    ensures DigitsStart(AsciiLower(s), end) == DigitsStart(s, end)
  {
    if end > 0 {
      LowerDigitsStart(s, end - 1);
    }
  }

  lemma LowerStripPort(s: string)
    ensures StripPort(AsciiLower(s)) == AsciiLower(StripPort(s))
  {
    if s != "" && s[|s| - 1] == ')' {
      var start := DigitsStart(s, |s| - 1);
      LowerDigitsStart(s, |s| - 1);
      if 2 <= start {
        LowerSlice(s, 0, start - 2);
      }
    }
  }

  /** Names that fold alike have canonical forms that fold alike. */
  lemma AsciiLowerFoldsNetworks(a: string, b: string)
    requires AsciiLower(a) == AsciiLower(b)
    ensures AsciiLower(Canonical(a)) == AsciiLower(Canonical(b))
  {
    LowerTrim(a);
    LowerTrim(b);
    LowerStripPort(Trim(a));
    LowerStripPort(Trim(b));
  }
}
