/**
 * NUL-terminated text as the daemon handles it: the in-place right trim
 * (`stringStripRight`) and the two library comparisons the probes use
 * (`strncmp`, `strstr`). A byte is a `char` whose code is 0..255, read as
 * unsigned; the text of a C string is the part of its buffer before the
 * first NUL, written here as a `string` without NUL.
 */
module CString {
  import opened Wrappers

  const NUL: char := '\0'

  /** The test `stringStripRight` applies: a control byte or a space. */
  predicate Blank(c: char) { c as int <= 32 }

  /**
   * The text with every trailing blank byte removed: a prefix of the input
   * that is empty or ends in a non-blank byte, and only blank bytes follow it.
   */
  function TrimRight(s: string): (r: string)
    ensures |r| <= |s| && r == s[..|r|]
    ensures forall j | |r| <= j < |s| :: Blank(s[j])
    ensures r == [] || !Blank(r[|r| - 1])
  {
    if s == [] || !Blank(s[|s| - 1]) then s else TrimRight(s[..|s| - 1])
  }

  /** The kept prefix is exactly the shortest one after which only blanks follow. */
  lemma TrimRightIsLongest(s: string, k: nat)
    requires k <= |s|
    requires forall j | k <= j < |s| :: Blank(s[j])
    requires k == 0 || !Blank(s[k - 1])
    ensures |TrimRight(s)| == k
  {
  }

  /** Trimming twice is trimming once. */
  lemma TrimRightIdempotent(s: string)
    ensures TrimRight(TrimRight(s)) == TrimRight(s)
  {
  }

  /** A byte that is not blank is never trimmed away. */
  lemma TrimRightKeeps(s: string, p: nat)
    requires p < |s| && !Blank(s[p])
    ensures p < |TrimRight(s)| && TrimRight(s)[p] == s[p]
  {
  }

  /** The length `strlen` computes: the index of the first NUL in the buffer. */
  function StrLen(buf: seq<char>): (n: nat)
    requires NUL in buf
    ensures n < |buf| && buf[n] == NUL && NUL !in buf[..n]
  {
    if buf[0] == NUL then 0 else 1 + StrLen(buf[1..])
  }

  /** The text a NUL-terminated buffer holds. */
  function Text(buf: seq<char>): (t: string)
    requires NUL in buf
    ensures NUL !in t
  {
    buf[..StrLen(buf)]
  }

  /**
   * The buffer `stringStripRight` leaves: every blank byte at the end of the
   * text overwritten with NUL, everything else as it was.
   */
  function Stripped(buf: seq<char>): (r: seq<char>)
    requires NUL in buf
    ensures |r| == |buf| && NUL in r
  {
    var n := StrLen(buf);
    var k := |TrimRight(buf[..n])|;
    var r := seq(|buf|, j requires 0 <= j < |buf| => if k <= j < n then NUL else buf[j]);
    assert r[n] == NUL;
    r
  }

  /** Stripping a buffer trims its text, and only overwrites blank bytes. */
  lemma StrippedText(buf: seq<char>)
    requires NUL in buf
    ensures NUL in Stripped(buf) && Text(Stripped(buf)) == TrimRight(Text(buf))
    ensures |Stripped(buf)| == |buf|
    ensures forall j | 0 <= j < |buf| && Stripped(buf)[j] != buf[j] :: Blank(buf[j]) && Stripped(buf)[j] == NUL
  {
    var n := StrLen(buf);
    var t := buf[..n];
    var k := |TrimRight(t)|;
    var out := Stripped(buf);
    assert out[..k] == TrimRight(t);
    if k < n {
      assert out[k] == NUL;
    } else {
      assert out[k] == buf[k];
    }
    assert NUL in out;
    assert NUL !in out[..k];
    assert StrLen(out) == k;
  }

  /** A second `stringStripRight` on the same buffer changes nothing. */
  lemma StrippedIdempotent(buf: seq<char>)
    requires NUL in buf
    ensures NUL in Stripped(buf) && Stripped(Stripped(buf)) == Stripped(buf)
  {
    StrippedText(buf);
    var once := Stripped(buf);
    var k := StrLen(once);
    TrimRightIdempotent(Text(buf));
    assert |TrimRight(once[..k])| == k;
    assert Stripped(once) == once;
  }

  /**
   * `stringStripRight(orig)`: walk down from the last byte of the text,
   * overwriting blank bytes with NUL, and stop at the first byte that is not blank.
   */
  method StripRight(orig: array<char>)
    requires NUL in orig[..]
    modifies orig
    ensures orig[..] == Stripped(old(orig[..]))
  {
    ghost var before := orig[..];
    var n := StrLen(orig[..]);
    var i := n - 1;
    var found := false;
    while i >= 0 && !found
      invariant -1 <= i < n
      invariant forall j | 0 <= j < orig.Length :: orig[j] == if i < j < n then NUL else before[j]
      invariant forall j | i < j < n :: Blank(before[j])
      invariant found ==> i >= 0 && !Blank(before[i])
      decreases i + 1, !found
    {
      if orig[i] as int <= 32 {
        orig[i] := NUL;
        i := i - 1;
      } else {
        found := true;
      }
    }
    TrimRightIsLongest(before[..n], i + 1);
    assert orig[..] == Stripped(before);
  }

  /** The byte at index `i` of a C string: its text, then NUL for ever after. */
  function CharAt(s: string, i: nat): char
  {
    if i < |s| then s[i] else NUL
  }

  /**
   * `strncmp(a + i, b + i, n - i) == 0`: the two strings agree on each of
   * their bytes below `n`, up to and including the first NUL they share.
   */
  predicate StrNEqualFrom(a: string, b: string, i: nat, n: nat)
    decreases n - i
  {
    i >= n || (CharAt(a, i) == CharAt(b, i) && (CharAt(a, i) == NUL || StrNEqualFrom(a, b, i + 1, n)))
  }

  /** `strncmp(a, b, n) == 0`. */
  predicate StrNEqual(a: string, b: string, n: nat)
  {
    StrNEqualFrom(a, b, 0, n)
  }

  /**
   * Against a NUL-free string `b` of length `n`, `strncmp(a, b, n) == 0`
   * exactly when the text `a` starts with `b`.
   */
  lemma StrNEqualIffPrefix(a: string, b: string, n: nat)
    requires |b| == n && NUL !in b
    ensures StrNEqual(a, b, n) <==> |a| >= n && a[..n] == b
  {
    StrNEqualFromIff(a, b, 0, n);
    if forall j | 0 <= j < n :: CharAt(a, j) == b[j] {
      if n > 0 {
        assert CharAt(a, n - 1) == b[n - 1];
      }
      assert a[..n] == b;
    }
  }

  /** The same from index `i` on: the bytes `i` to `n - 1` agree. */
  lemma {:induction false} StrNEqualFromIff(a: string, b: string, i: nat, n: nat)
    requires |b| == n && NUL !in b && i <= n
    ensures StrNEqualFrom(a, b, i, n) <==> forall j | i <= j < n :: CharAt(a, j) == b[j]
    decreases n - i
  {
    if i < n {
      StrNEqualFromIff(a, b, i + 1, n);
      assert b[i] != NUL;
    }
  }

  /** `needle` is found in `hay` at index `k`. */
  predicate OccursAt(hay: string, needle: string, k: nat)
  {
    k + |needle| <= |hay| && hay[k..k + |needle|] == needle
  }

  /**
   * `strstr(hay + from, needle)`: the first index at or after `from` where
   * `needle` is found, or none.
   */
  function StrStr(hay: string, needle: string, from: nat): (r: Option<nat>)
    ensures r.Some? ==> from <= r.value && OccursAt(hay, needle, r.value)
    ensures r.Some? ==> forall k | from <= k < r.value :: !OccursAt(hay, needle, k)
    ensures r.None? ==> forall k | from <= k :: !OccursAt(hay, needle, k)
    decreases |hay| - from
  {
    if from + |needle| > |hay| then None
    else if hay[from..from + |needle|] == needle then Some(from)
    else StrStr(hay, needle, from + 1)
  }

  /** A needle free of blank bytes is found in the trimmed text iff it is found in the text. */
  lemma {:induction false} TrimRightKeepsOccurrences(s: string, needle: string)
    requires needle != [] && forall i | 0 <= i < |needle| :: !Blank(needle[i])
    ensures (exists k: nat :: OccursAt(TrimRight(s), needle, k)) <==> (exists k: nat :: OccursAt(s, needle, k))
  {
    var r := TrimRight(s);
    if k: nat :| OccursAt(r, needle, k) {
      assert s[k..k + |needle|] == r[k..k + |needle|];
      assert OccursAt(s, needle, k);
    }
    if k: nat :| OccursAt(s, needle, k) {
      var last := k + |needle| - 1;
      assert s[last] == needle[|needle| - 1];
      TrimRightKeeps(s, last);
      assert r[k..k + |needle|] == s[k..k + |needle|];
      assert OccursAt(r, needle, k);
    }
  }
}
