/**
 * ROS graph names as the remapping code sees them: plain strings, tested
 * for being global (absolute) and for containing another name.
 */
module Names {

  /** `roslib.names.is_global`: a name is global when it is non-empty and starts with '/'. */
  predicate IsGlobal(name: string)
  {
    |name| > 0 && name[0] == '/'
  }

  /** Python's `sub in s` on strings: `sub` occurs in `s` at some offset. */
  ghost predicate OccursAt(sub: string, s: string, i: int)
  {
    0 <= i && i + |sub| <= |s| && s[i..i + |sub|] == sub
  }

  /** Executable substring test, scanning `s` left to right. */
  predicate IsSubstring(sub: string, s: string)
    decreases |s|
  {
    sub <= s || (|s| > 0 && IsSubstring(sub, s[1..]))
  }

  /** An occurrence at offset `i` is found by the scan. */
  lemma {:induction false} OccursIsFound(sub: string, s: string, i: int)
    requires OccursAt(sub, s, i)
    ensures IsSubstring(sub, s)
    decreases i
  {
    if i == 0 {
      assert s[..|sub|] == sub;
    } else {
      assert s[1..][i - 1..i - 1 + |sub|] == s[i..i + |sub|];
      OccursIsFound(sub, s[1..], i - 1);
    }
  }

  /** When the scan succeeds it has passed over an occurrence. */
  lemma {:induction false} FoundOccurs(sub: string, s: string) returns (i: nat)
    requires IsSubstring(sub, s)
    ensures OccursAt(sub, s, i)
    decreases |s|
  {
    if sub <= s {
      i := 0;
      assert s[0..|sub|] == sub;
    } else {
      var j := FoundOccurs(sub, s[1..]);
      assert s[1..][j..j + |sub|] == s[j + 1..j + 1 + |sub|];
      i := j + 1;
    }
  }

  /** The scan agrees with the definition of substring: both directions. */
  lemma IsSubstringIffOccurs(sub: string, s: string)
    ensures IsSubstring(sub, s) <==> exists i :: OccursAt(sub, s, i)
  {
    if IsSubstring(sub, s) {
      var i := FoundOccurs(sub, s);
    }
    if exists i :: OccursAt(sub, s, i) {
      var i :| OccursAt(sub, s, i);
      OccursIsFound(sub, s, i);
    }
  }
}
