/** The JavaScript string operations the services rely on. */
module Text {
  import opened Basics

  predicate OccursAt(s: string, pattern: string, i: int) {
    0 <= i && i + |pattern| <= |s| && s[i..i + |pattern|] == pattern
  }

  /** The pattern occurs at i when the string is i characters, the pattern, and the rest. */
  lemma OccursExact(s: string, pattern: string, i: int)
    ensures OccursAt(s, pattern, i) <==> exists a: string, b: string :: |a| == i && s == a + pattern + b
  {
    if OccursAt(s, pattern, i) {
      assert s == s[..i] + pattern + s[i + |pattern|..];
    }
  }

  /** `s.indexOf(pattern)`: the first occurrence, if there is one. */
  function Find(s: string, pattern: string): (r: Option<nat>)
    ensures r.Some? ==> OccursAt(s, pattern, r.value) && forall k | 0 <= k < r.value :: !OccursAt(s, pattern, k)
    ensures r.None? ==> forall k :: !OccursAt(s, pattern, k)
  {
    FindFrom(s, pattern, 0)
  }

  function FindFrom(s: string, pattern: string, i: nat): (r: Option<nat>)
    requires i <= |s|
    ensures r.Some? ==> i <= r.value && OccursAt(s, pattern, r.value)
    ensures r.Some? ==> forall k | i <= k < r.value :: !OccursAt(s, pattern, k)
    ensures r.None? ==> forall k | i <= k :: !OccursAt(s, pattern, k)
    decreases |s| - i
  {
    if OccursAt(s, pattern, i) then Some(i)
    else if i < |s| then FindFrom(s, pattern, i + 1)
    else None
  }

  /** `s.replace(pattern, () => replacement)`: only the first occurrence is replaced. */
  function ReplaceFirst(s: string, pattern: string, replacement: string): string {
    match Find(s, pattern)
    case None => s
    case Some(i) => ReplaceAt(s, pattern, replacement, i)
  }

  function ReplaceAt(s: string, pattern: string, replacement: string, i: nat): string
    requires i + |pattern| <= |s|
  {
    s[..i] + replacement + s[i + |pattern|..]
  }

  /** An occurrence that no earlier one precedes is the one `Find` returns. */
  lemma FindIsFirst(s: string, pattern: string, i: nat)
    requires OccursAt(s, pattern, i)
    requires forall k | 0 <= k < i :: !OccursAt(s, pattern, k)
    ensures Find(s, pattern) == Some(i)
  {
  }

  /** The white space that `trim` removes. */
  predicate IsSpace(c: char) {
    || c in "\t\n\r \U{000B}\U{000C}\U{00A0}\U{FEFF}\U{1680}\U{2028}\U{2029}\U{202F}\U{205F}\U{3000}"
    || '\U{2000}' <= c <= '\U{200A}'
  }

  function TrimStart(s: string): string {
    if s != "" && IsSpace(s[0]) then TrimStart(s[1..]) else s
  }

  function TrimEnd(s: string): string {
    if s != "" && IsSpace(s[|s| - 1]) then TrimEnd(s[..|s| - 1]) else s
  }

  function Trim(s: string): string {
    TrimEnd(TrimStart(s))
  }

  /** The space characters by their codes: the white space and line terminators of ECMAScript, section 12. */
  lemma SpaceCodes(c: char)
    ensures IsSpace(c) <==>
      var code := c as int;
      || 9 <= code <= 13 || code == 0x20 || code == 0xA0 || code == 0x1680 || 0x2000 <= code <= 0x200A
      || code == 0x2028 || code == 0x2029 || code == 0x202F || code == 0x205F || code == 0x3000 || code == 0xFEFF
  {
  }

  /** `Trim` cuts away a run of spaces at each end, and leaves none there. */
  lemma TrimMeaning(s: string)
    ensures exists i: nat, j: nat | i <= j <= |s| ::
      && Trim(s) == s[i..j]
      && (forall k | 0 <= k < i || j <= k < |s| :: IsSpace(s[k]))
      && (i < j ==> !IsSpace(s[i]) && !IsSpace(s[j - 1]))
  {
    var i := TrimStartAt(s);
    var t := s[i..];
    var j := TrimEndAt(t);
    assert t[..j] == s[i..i + j];
    forall k | i + j <= k < |s| ensures IsSpace(s[k]) {
      assert s[k] == t[j..][k - i - j];
    }
  }

  lemma {:induction false} TrimStartAt(s: string) returns (i: nat)
    ensures i <= |s| && TrimStart(s) == s[i..]
    ensures forall k | 0 <= k < i :: IsSpace(s[k])
    ensures i < |s| ==> !IsSpace(s[i])
  {
    i := 0;
    if s != "" && IsSpace(s[0]) {
      var n := TrimStartAt(s[1..]);
      i := n + 1;
      assert s[1..][n..] == s[i..];
      assert forall k | 1 <= k < i :: s[k] == s[1..][k - 1];
    }
  }

  lemma {:induction false} TrimEndAt(s: string) returns (j: nat)
    ensures j <= |s| && TrimEnd(s) == s[..j]
    ensures AllSpace(s[j..])
    ensures j > 0 ==> !IsSpace(s[j - 1])
  {
    j := |s|;
    if s != "" && IsSpace(s[|s| - 1]) {
      var rest, last := s[..|s| - 1], s[|s| - 1];
      j := TrimEndAt(rest);
      assert rest[..j] == s[..j];
      assert s[j..] == rest[j..] + [last];
      AllSpaceAppend(rest[j..], last);
      assert j > 0 ==> rest[j - 1] == s[j - 1];
    }
  }

  ghost predicate AllSpace(s: string) {
    forall k | 0 <= k < |s| :: IsSpace(s[k])
  }

  lemma AllSpaceAppend(s: string, c: char)
    requires AllSpace(s) && IsSpace(c)
    ensures AllSpace(s + [c])
  {
  }

  function LowerChar(c: char): char {
    if 'A' <= c <= 'Z' then c - 'A' + 'a' else c
  }

  /** Lower-casing of the ASCII letters: codes 65 to 90 move up by 32. */
  function Lower(s: string): (r: string)
    ensures |r| == |s|
    ensures forall i | 0 <= i < |s| :: r[i] as int == s[i] as int + if 65 <= s[i] as int <= 90 then 32 else 0
  {
    seq(|s|, i requires 0 <= i < |s| => LowerChar(s[i]))
  }

  predicate StartsWith(s: string, prefix: string) {
    prefix <= s
  }
}
