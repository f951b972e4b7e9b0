/** The part of Python's string API that the AR conf filter relies on:
    `str.isspace`, `str.strip()`, `str.find(sep, start)`, `str.split(sep)`
    with an explicit separator, and `str.endswith`. */
module Text {

  /** Python's `str.isspace()` for one character: the controls 0x09..0x0D and
      0x1C..0x1F, the space, 0x85, 0xA0 and the Unicode space separators,
      which are exactly the characters `str.strip()` removes. */
  predicate IsSpace(c: char) {
    var n := c as int;
    n == 0x20 || 0x09 <= n <= 0x0D || 0x1C <= n <= 0x1F || n == 0x85 || n == 0xA0
    || n == 0x1680 || 0x2000 <= n <= 0x200A || n == 0x2028 || n == 0x2029
    || n == 0x202F || n == 0x205F || n == 0x3000
  }

  /** `s.lstrip()`: the longest suffix of `s` that does not start with whitespace. */
  function TrimStart(s: string): (r: string)
    ensures |r| <= |s| && r == s[|s| - |r|..]
    ensures forall k :: 0 <= k < |s| - |r| ==> IsSpace(s[k])
    ensures r != [] ==> !IsSpace(r[0])
    decreases |s|
  {
    if s != [] && IsSpace(s[0]) then TrimStart(s[1..]) else s
  }

  /** `s.rstrip()`: the longest prefix of `s` that does not end with whitespace. */
  function TrimEnd(s: string): (r: string)
    ensures |r| <= |s| && r == s[..|r|]
    ensures forall k :: |r| <= k < |s| ==> IsSpace(s[k])
    ensures r != [] ==> !IsSpace(r[|r| - 1])
    decreases |s|
  {
    if s != [] && IsSpace(s[|s| - 1]) then TrimEnd(s[..|s| - 1]) else s
  }

  /** `s` is `r` with `i` whitespace characters before it and only whitespace after it. */
  predicate Padded(s: string, r: string, i: int) {
    0 <= i <= |s| - |r| && r == s[i..i + |r|]
    && (forall k :: 0 <= k < i ==> IsSpace(s[k]))
    && (forall k :: i + |r| <= k < |s| ==> IsSpace(s[k]))
  }

  /** `s.strip()`: `s` without its leading and trailing whitespace. The result
      is the slice `s[i..i + |r|]` with only whitespace around it, and it
      neither starts nor ends with whitespace. */
  function Strip(s: string): (r: string)
    ensures r != [] ==> !IsSpace(r[0]) && !IsSpace(r[|r| - 1])
    ensures Padded(s, r, |s| - |TrimStart(s)|)
  {
    var t := TrimStart(s);
    var r := TrimEnd(t);
    PaddedByTrims(s, t, r);
    r
  }

  lemma {:induction false} PaddedByTrims(s: string, t: string, r: string)
    requires t == TrimStart(s) && r == TrimEnd(t)
    ensures Padded(s, r, |s| - |t|)
  {
    var i := |s| - |t|;
    assert t == s[i..];
    assert r == t[..|r|];
    assert r == s[i..i + |r|];
    forall k | i + |r| <= k < |s| ensures IsSpace(s[k]) {
      assert s[k] == t[k - i];
    }
  }

  /** `s.endswith([c])`. */
  predicate EndsWith(s: string, c: char) {
    |s| > 0 && s[|s| - 1] == c
  }

  /** The separator `sep` occurs in `s` starting at index `k`. */
  predicate OccursAt(s: string, sep: string, k: int) {
    0 <= k && k + |sep| <= |s| && s[k..k + |sep|] == sep
  }

  /** `sep` occurs nowhere in `s`. */
  predicate Free(s: string, sep: string) {
    forall k :: 0 <= k <= |s| ==> !OccursAt(s, sep, k)
  }

  /** `s.find(sep, start)`: the leftmost occurrence of `sep` at or after `start`,
      or -1 when there is none. */
  function Find(s: string, sep: string, start: nat): (r: int)
    requires |sep| > 0 && start <= |s|
    ensures r == -1 || (start <= r && OccursAt(s, sep, r))
    ensures forall k :: start <= k < (if r == -1 then |s| else r) ==> !OccursAt(s, sep, k)
    decreases |s| - start
  {
    if start + |sep| > |s| then -1
    else if OccursAt(s, sep, start) then start
    else Find(s, sep, start + 1)
  }

  /** The fields joined back together with `sep` between them: Python's `sep.join(parts)`. */
  function Join(parts: seq<string>, sep: string): string
    decreases |parts|
  {
    if parts == [] then ""
    else if |parts| == 1 then parts[0]
    else parts[0] + sep + Join(parts[1..], sep)
  }

  /** A prefix of a string without `sep` has no `sep` either. */
  lemma FreePrefix(s: string, p: string, sep: string)
    requires Free(s, sep) && p <= s
    ensures Free(p, sep)
  {
    forall k | OccursAt(p, sep, k) ensures false {
      assert s[k..k + |sep|] == p[k..k + |sep|];
      assert OccursAt(s, sep, k);
    }
  }

  /** A field `field` followed by its separator: no occurrence of `sep`
      starts inside `field`, so the cut after it is the leftmost one. */
  predicate CutLeftmost(field: string, sep: string) {
    forall k :: 0 <= k < |field| ==> !OccursAt(field + sep, sep, k)
  }

  /** `s.split(sep)`: cut `s` at the leftmost occurrence of `sep`, then split
      what follows it. There is always at least one field, the first field is
      a prefix of `s`, no field contains `sep`, every cut is at the leftmost
      occurrence (`sep` does not start inside a field and run on into the
      separator after it), and joining the fields with `sep` gives `s` back. */
  function Split(s: string, sep: string): (parts: seq<string>)
    requires |sep| > 0
    ensures |parts| >= 1
    ensures parts[0] <= s
    ensures forall i :: 0 <= i < |parts| ==> Free(parts[i], sep)
    ensures forall n :: 0 <= n < |parts| - 1 ==> CutLeftmost(parts[n], sep)
    ensures Join(parts, sep) == s
    decreases |s|
  {
    var i := Find(s, sep, 0);
    if i < 0 then
      assert Free(s, sep);
      [s]
    else
      var head, rest := s[..i], s[i + |sep|..];
      var tail := Split(rest, sep);
      assert s == head + sep + rest by {
        assert s[i..i + |sep|] == sep;
      }
      // Below `i`, `Find` saw no occurrence, both in `s` and in its prefix `head + sep`.
      assert head + sep == s[..i + |sep|];
      forall k | 0 <= k < |head| ensures !OccursAt(head + sep, sep, k) && !OccursAt(head, sep, k) {
        assert !OccursAt(s, sep, k);
        assert s[..i + |sep|][k..k + |sep|] == s[k..k + |sep|];
        if k + |sep| <= |head| {
          assert head[k..k + |sep|] == s[k..k + |sep|];
        }
      }
      assert Free(head, sep) && CutLeftmost(head, sep);
      var parts := [head] + tail;
      assert parts[1..] == tail;
      forall n | 0 <= n < |parts| - 1 ensures CutLeftmost(parts[n], sep) {
        if n > 0 {
          assert parts[n] == tail[n - 1];
        }
      }
      parts
  }

  /** `s.split(sep)` has at least two fields exactly when `sep` occurs in `s`. */
  lemma {:induction false} SplitTwoFields(s: string, sep: string)
    requires |sep| > 0
    ensures |Split(s, sep)| >= 2 <==> exists k :: OccursAt(s, sep, k)
  {
    var i := Find(s, sep, 0);
    if i >= 0 {
      assert OccursAt(s, sep, i);
    }
  }

  /** `sep` occurs in the text after a cut at `n` exactly where it occurs in
      `s`, shifted by `n`. */
  lemma OccursAfterCut(s: string, sep: string, n: nat, k: int)
    requires n <= |s|
    ensures OccursAt(s[n..], sep, k) <==> k >= 0 && OccursAt(s, sep, n + k)
  {
    if 0 <= k && k + |sep| <= |s| - n {
      assert s[n..][k..k + |sep|] == s[n + k..n + k + |sep|];
    }
  }

  /** Where `sep` occurs, `s.split(sep)` is the text before its leftmost
      occurrence followed by the fields of the text after it. */
  lemma {:induction false} SplitAtFirst(s: string, sep: string, i0: int)
    requires |sep| > 0 && i0 == Find(s, sep, 0) && i0 >= 0
    ensures Split(s, sep) == [s[..i0]] + Split(s[i0 + |sep|..], sep)
  {
  }

  /** Two occurrences of `sep` that do not overlap. */
  predicate TwoApart(s: string, sep: string, i: int, j: int) {
    OccursAt(s, sep, i) && OccursAt(s, sep, j) && i + |sep| <= j
  }

  /** `s.split(sep)` has at least three fields exactly when `s` holds two
      occurrences of `sep` that do not overlap. */
  lemma {:induction false} SplitThreeFields(s: string, sep: string)
    requires |sep| > 0
    ensures |Split(s, sep)| >= 3 <==> exists i, j :: TwoApart(s, sep, i, j)
  {
    var i0 := Find(s, sep, 0);
    if i0 >= 0 {
      var n := i0 + |sep|;
      SplitAtFirst(s, sep, i0);
      SplitTwoFields(s[n..], sep);
      if |Split(s, sep)| >= 3 {
        var k :| OccursAt(s[n..], sep, k);
        OccursAfterCut(s, sep, n, k);
        assert TwoApart(s, sep, i0, n + k);
      }
      if exists i, j :: TwoApart(s, sep, i, j) {
        var i, j :| TwoApart(s, sep, i, j);
        assert i0 <= i;
        OccursAfterCut(s, sep, n, j - n);
      }
    } else {
      NotFound(s, sep);
    }
  }

  /** When `s.find(sep)` is -1, `sep` occurs nowhere in `s`. */
  lemma NotFound(s: string, sep: string)
    requires |sep| > 0 && Find(s, sep, 0) < 0
    ensures forall k :: !OccursAt(s, sep, k)
  {
  }

}
