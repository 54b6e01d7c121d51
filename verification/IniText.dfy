/** Lines of text as ini.c takes them apart: C strings in a buffer, trimmed and cut in place. */
module IniText {
  const NUL: char := '\0'

  /** isspace in the C locale: the blank and tab, newline, vertical tab, form feed, return. */
  predicate IsSpace(c: char) {
    c == ' ' || '\t' <= c <= '\r'
  }

  predicate StartsComment(c: char) {
    c == '#' || c == ';'
  }

  /** strchr: the first `c` at or after `from`, or the length. */
  function IndexOf(s: string, c: char, from: nat): (i: nat)
    requires from <= |s|
    ensures from <= i <= |s|
    ensures i < |s| ==> s[i] == c
    ensures forall k :: from <= k < i ==> s[k] != c
    decreases |s| - from
  {
    if from == |s| || s[from] == c then from else IndexOf(s, c, from + 1)
  }

  function CommentAt(s: string, from: nat): (i: nat)
    requires from <= |s|
    ensures from <= i <= |s|
    ensures i < |s| ==> StartsComment(s[i])
    ensures forall k :: from <= k < i ==> !StartsComment(s[k])
    decreases |s| - from
  {
    if from == |s| || StartsComment(s[from]) then from else CommentAt(s, from + 1)
  }

  function StripComment(s: string): string {
    s[..CommentAt(s, 0)]
  }

  /** The first character at or after `from` that is no space, or the length. */
  function WordAt(s: string, from: nat): (i: nat)
    requires from <= |s|
    ensures from <= i <= |s|
    ensures i < |s| ==> !IsSpace(s[i])
    ensures forall k :: from <= k < i ==> IsSpace(s[k])
    decreases |s| - from
  {
    if from == |s| || !IsSpace(s[from]) then from else WordAt(s, from + 1)
  }

  /** Where the last word before `end` stops, or `from`. */
  function WordEnd(s: string, from: nat, end: nat): (i: nat)
    requires from <= end <= |s|
    ensures from <= i <= end
    ensures from < i ==> !IsSpace(s[i - 1])
    ensures forall k :: i <= k < end ==> IsSpace(s[k])
    decreases end
  {
    if end == from || !IsSpace(s[end - 1]) then end else WordEnd(s, from, end - 1)
  }

  function Trim(s: string): string {
    var b := WordAt(s, 0);
    s[b..WordEnd(s, b, |s|)]
  }

  /** No space at either end; the empty string is trimmed. */
  predicate Trimmed(s: string) {
    s != [] ==> !IsSpace(s[0]) && !IsSpace(s[|s| - 1])
  }

  lemma TrimIsTrimmed(s: string)
    ensures Trimmed(Trim(s))
  {
  }

  /** Padding on both sides is exactly what trimming removes. */
  lemma TrimIs(s: string, b: nat, e: nat)
    requires b <= e <= |s| && Trimmed(s[b..e])
    requires forall k :: 0 <= k < b ==> IsSpace(s[k])
    requires forall k :: e <= k < |s| ==> IsSpace(s[k])
    ensures Trim(s) == s[b..e]
  {
    var from := WordAt(s, 0);
    var until := WordEnd(s, from, |s|);
    if b == e {
      assert from == |s|;
    } else {
      assert s[b..e][0] == s[b] && s[b..e][e - b - 1] == s[e - 1];
      assert from == b;
      assert until == e;
    }
  }

  // ---- C strings ----

  predicate Terminated(a: seq<char>, start: nat) {
    start <= |a| && IndexOf(a, NUL, start) < |a|
  }

  /** The C string at `start`. */
  function CString(a: seq<char>, start: nat): (s: string)
    requires Terminated(a, start)
    ensures NUL !in s
  {
    a[start..IndexOf(a, NUL, start)]
  }

  lemma IndexIs(a: seq<char>, c: char, start: nat, n: nat)
    requires start <= n < |a| && a[n] == c && forall k :: start <= k < n ==> a[k] != c
    ensures IndexOf(a, c, start) == n
  {
  }

  /** Writing the terminator at `cut` leaves what came before it. */
  lemma CutAt(before: seq<char>, after: seq<char>, start: nat, from: nat, cut: nat)
    requires Terminated(before, start) && start <= from <= cut <= IndexOf(before, NUL, start)
    requires after == before[cut := NUL]
    ensures Terminated(after, from) && IndexOf(after, NUL, from) == cut
    ensures CString(after, from) == before[from..cut]
    ensures before[from..cut] == CString(before, start)[from - start..cut - start]
  {
    IndexIs(after, NUL, from, cut);
  }

  /** The rest of a string is still there if nothing from `from` on changed. */
  lemma TailKept(before: seq<char>, after: seq<char>, start: nat, from: nat)
    requires Terminated(before, start) && start <= from <= IndexOf(before, NUL, start)
    requires |after| == |before| && after[from..] == before[from..]
    ensures Terminated(after, from)
    ensures CString(after, from) == CString(before, start)[from - start..]
  {
    var n := IndexOf(before, NUL, start);
    forall k | from <= k <= n
      ensures after[k] == before[k]
    {
      assert after[from..][k - from] == before[from..][k - from];
    }
    IndexIs(after, NUL, from, n);
  }

  /** A string is still there if it ends before anything changed. */
  lemma HeadKept(before: seq<char>, after: seq<char>, start: nat, until: nat)
    requires Terminated(before, start) && IndexOf(before, NUL, start) < until <= |before| == |after|
    requires after[..until] == before[..until]
    ensures Terminated(after, start) && CString(after, start) == CString(before, start)
  {
    var n := IndexOf(before, NUL, start);
    forall k | start <= k <= n
      ensures after[k] == before[k]
    {
      assert after[..until][k] == before[..until][k];
    }
    IndexIs(after, NUL, start, n);
  }

  method StripCommentAt(line: array<char>, start: nat)
    requires Terminated(line[..], start)
    modifies line
    ensures Terminated(line[..], start)
    ensures CString(line[..], start) == StripComment(old(CString(line[..], start)))
  {
    ghost var before := line[..];
    ghost var s := CString(before, start);
    var p := start;
    while line[p] != NUL
      invariant start <= p <= IndexOf(before, NUL, start) && line[..] == before
      invariant forall k :: 0 <= k < p - start ==> !StartsComment(s[k])
      decreases line.Length - p
    {
      assert s[p - start] == line[p];
      if line[p] == '#' || line[p] == ';' {
        line[p] := NUL;
        CutAt(before, line[..], start, start, p);
        return;
      }
      p := p + 1;
    }
    assert StripComment(s) == s;
  }

  /** s + strlen(s). */
  method StringEnd(line: array<char>, start: nat) returns (end: nat)
    requires Terminated(line[..], start)
    ensures end == IndexOf(line[..], NUL, start)
  {
    end := start;
    while line[end] != NUL
      invariant start <= end <= IndexOf(line[..], NUL, start)
      decreases line.Length - end
    {
      end := end + 1;
    }
  }

  method SkipSpaces(line: array<char>, start: nat) returns (s: nat)
    requires Terminated(line[..], start)
    ensures start <= s <= IndexOf(line[..], NUL, start)
    ensures s - start == WordAt(CString(line[..], start), 0)
  {
    ghost var text := CString(line[..], start);
    s := start;
    while line[s] != NUL && IsSpace(line[s])
      invariant start <= s <= IndexOf(line[..], NUL, start)
      invariant WordAt(text, s - start) == WordAt(text, 0)
      decreases line.Length - s
    {
      assert text[s - start] == line[s];
      s := s + 1;
    }
    assert s < IndexOf(line[..], NUL, start) ==> text[s - start] == line[s];
  }

  method SpacesEnd(line: array<char>, start: nat, s: nat) returns (end: nat)
    requires Terminated(line[..], start) && start <= s <= IndexOf(line[..], NUL, start)
    ensures s <= end <= IndexOf(line[..], NUL, start)
    ensures var text := CString(line[..], start); end - start == WordEnd(text, s - start, |text|)
  {
    ghost var text := CString(line[..], start);
    ghost var nul := IndexOf(line[..], NUL, start);
    IndexIs(line[..], NUL, s, nul);
    end := StringEnd(line, s);
    while end > s && IsSpace(line[end - 1])
      invariant s <= end <= nul
      invariant WordEnd(text, s - start, end - start) == WordEnd(text, s - start, |text|)
      decreases end
    {
      assert text[end - 1 - start] == line[end - 1];
      end := end - 1;
    }
    assert end > s ==> text[end - 1 - start] == line[end - 1];
  }

  /** The string at `start` became `t` at `s`, and only its own cells changed. */
  ghost predicate Becomes(before: seq<char>, start: nat, after: seq<char>, s: nat, t: string)
    requires Terminated(before, start)
  {
    var end := IndexOf(before, NUL, start);
    && |after| == |before| && start <= s && Terminated(after, s)
    && CString(after, s) == t
    && IndexOf(after, NUL, s) <= end
    && after[..start] == before[..start] && after[end + 1..] == before[end + 1..]
  }

  /** Of two strings side by side each can be changed without touching the other. */
  lemma SideBySide(
      before: seq<char>, s: nat, between: seq<char>, key: nat, k: string, after: seq<char>, value: nat, v: string)
    requires Terminated(before, s) && Becomes(before, s, between, key, k)
    requires var next := IndexOf(before, NUL, s) + 1;
             Terminated(between, next) && Becomes(between, next, after, value, v)
    ensures Terminated(after, key) && CString(after, key) == k
    ensures Terminated(after, value) && CString(after, value) == v
  {
    HeadKept(between, after, key, IndexOf(before, NUL, s) + 1);
  }

  lemma TrimmedBecomes(before: seq<char>, after: seq<char>, start: nat, s: nat, end: nat)
    requires Terminated(before, start) && start <= s <= end <= IndexOf(before, NUL, start)
    requires s - start == WordAt(CString(before, start), 0)
    requires end - start == WordEnd(CString(before, start), s - start, |CString(before, start)|)
    requires after == before[end := NUL]
    ensures Becomes(before, start, after, s, Trim(CString(before, start)))
  {
    CutAt(before, after, start, s, end);
    ChangedAt(before, after, start, end, IndexOf(before, NUL, start));
  }

  lemma ChangedAt(before: seq<char>, after: seq<char>, start: nat, at: nat, end: nat)
    requires start <= at <= end < |before| && after == before[at := NUL]
    ensures after[..start] == before[..start] && after[end + 1..] == before[end + 1..]
  {
  }

  /** trim: cuts the spaces off the end in place and returns where the rest starts. */
  method TrimAt(line: array<char>, start: nat) returns (s: nat)
    requires Terminated(line[..], start)
    modifies line
    ensures Becomes(old(line[..]), start, line[..], s, Trim(old(CString(line[..], start))))
  {
    ghost var before := line[..];
    s := SkipSpaces(line, start);
    var end := SpacesEnd(line, start, s);
    line[end] := NUL;
    TrimmedBecomes(before, line[..], start, s, end);
  }

  /** strchr on the string at `start`: where `c` is, or where the string ends. */
  method FindAt(line: array<char>, start: nat, c: char) returns (p: nat, found: bool)
    requires Terminated(line[..], start) && c != NUL
    ensures start <= p <= IndexOf(line[..], NUL, start)
    ensures p - start == IndexOf(CString(line[..], start), c, 0)
    ensures found <==> p < IndexOf(line[..], NUL, start)
  {
    ghost var s := CString(line[..], start);
    p := start;
    while line[p] != NUL && line[p] != c
      invariant start <= p <= IndexOf(line[..], NUL, start)
      invariant forall k :: 0 <= k < p - start ==> s[k] != c
      decreases line.Length - p
    {
      assert s[p - start] == line[p];
      p := p + 1;
    }
    found := line[p] == c;
    if found {
      assert s[p - start] == c;
      IndexIs(s, c, 0, p - start);
    }
  }
}
