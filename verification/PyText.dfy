/** The parts of Python's str that the system relies on. */
module PyText {
  /** Characters that str.strip() removes. */
  predicate IsSpace(c: char) {
    || '\U{0009}' <= c <= '\U{000d}' || '\U{001c}' <= c <= ' ' || c == '\U{0085}' || c == '\U{00a0}' || c == '\U{1680}'
    || '\U{2000}' <= c <= '\U{200a}' || c == '\U{2028}' || c == '\U{2029}' || c == '\U{202f}' || c == '\U{205f}'
    || c == '\U{3000}'
  }

  function StripLeft(s: string): string {
    if s != "" && IsSpace(s[0]) then StripLeft(s[1..]) else s
  }

  function StripRight(s: string): string {
    if s != "" && IsSpace(s[|s| - 1]) then StripRight(s[..|s| - 1]) else s
  }

  function Strip(s: string): string {
    StripRight(StripLeft(s))
  }

  ghost predicate AllSpace(s: string) {
    forall i | 0 <= i < |s| :: IsSpace(s[i])
  }

  lemma {:induction false} StripLeftIsExact(s: string) returns (removed: string)
    ensures AllSpace(removed) && s == removed + StripLeft(s)
    ensures StripLeft(s) != "" ==> !IsSpace(StripLeft(s)[0])
    decreases |s|
  {
    removed := "";
    if s != "" && IsSpace(s[0]) {
      var more := StripLeftIsExact(s[1..]);
      removed := [s[0]] + more;
      assert s == [s[0]] + s[1..];
    }
  }

  lemma {:induction false} StripRightIsExact(s: string) returns (removed: string)
    ensures AllSpace(removed) && s == StripRight(s) + removed
    ensures StripRight(s) != "" ==> !IsSpace(StripRight(s)[|StripRight(s)| - 1])
    decreases |s|
  {
    removed := "";
    if s != "" && IsSpace(s[|s| - 1]) {
      var more := StripRightIsExact(s[..|s| - 1]);
      removed := more + [s[|s| - 1]];
      assert s == s[..|s| - 1] + [s[|s| - 1]];
    }
  }

  /** Only white space is removed, at both ends, and all of it. */
  lemma StripIsExact(s: string) returns (before: string, after: string)
    ensures AllSpace(before) && AllSpace(after) && s == before + Strip(s) + after
    ensures var t := Strip(s); t != "" ==> !IsSpace(t[0]) && !IsSpace(t[|t| - 1])
  {
    before := StripLeftIsExact(s);
    after := StripRightIsExact(StripLeft(s));
    assert Strip(s) != "" ==> Strip(s)[0] == StripLeft(s)[0];
  }
}
