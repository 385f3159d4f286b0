/**
 * UTF-8 as section 4 of RFC 3629 defines it, the fatal `TextDecoder` built on it, and
 * the window trimming of scripts/rebrand-inventory.ts.
 *
 * A decoded string is represented by its own UTF-8 bytes, so decoding a byte string is
 * checking it and dropping one leading byte-order mark.
 */
module Utf8 {
  import opened Lists
  import opened Bytes

  predicate IsTail(b: Byte) {
    0x80 <= b <= 0xBF
  }

  /** Length announced by a lead byte; only meaningful for bytes that start a character. */
  function Announced(b: Byte): nat {
    if b >= 0xF0 then 4 else if b >= 0xE0 then 3 else if b >= 0xC0 then 2 else 1
  }

  /** The second byte is narrower after E0, ED, F0 and F4. */
  predicate SecondFits(lead: Byte, second: Byte) {
    && IsTail(second)
    && (lead == 0xE0 ==> 0xA0 <= second)
    && (lead == 0xED ==> second <= 0x9F)
    && (lead == 0xF0 ==> 0x90 <= second)
    && (lead == 0xF4 ==> second <= 0x8F)
  }

  predicate IsLead(b: Byte) {
    b < 0x80 || 0xC2 <= b <= 0xF4
  }

  /** Does `s` start with a whole well-formed character? */
  predicate StartsWithChar(s: Bytes) {
    && s != []
    && IsLead(s[0])
    && Announced(s[0]) <= |s|
    && (Announced(s[0]) > 1 ==> SecondFits(s[0], s[1]))
    && forall i :: 2 <= i < Announced(s[0]) ==> IsTail(s[i])
  }

  predicate ValidUtf8(s: Bytes) {
    s == [] || (StartsWithChar(s) && ValidUtf8(s[Announced(s[0])..]))
  }

  lemma {:induction false} ValidConcat(a: Bytes, b: Bytes)
    requires ValidUtf8(a)
    ensures ValidUtf8(a + b) == ValidUtf8(b)
  {
    if a == [] {
      assert a + b == b;
    } else {
      var n := Announced(a[0]);
      assert (a + b)[n..] == a[n..] + b;
      ValidConcat(a[n..], b);
    }
  }

  /** An ASCII byte never lies inside a character, so a valid string splits around it. */
  lemma {:induction false} SplitAroundAscii(a: Bytes, c: Byte, b: Bytes)
    requires c < 0x80 && ValidUtf8(a + [c] + b)
    ensures ValidUtf8(a) && ValidUtf8(b)
  {
    var s := a + [c] + b;
    if a == [] {
      assert s[1..] == b;
    } else {
      var n := Announced(s[0]);
      assert s[|a|] == c;
      assert n <= |a|;
      assert s == a[..n] + (a[n..] + [c] + b);
      SliceMiddle(a[..n], a[n..] + [c] + b, []);
      SplitAroundAscii(a[n..], c, b);
      assert forall i :: 0 <= i < n ==> a[i] == s[i];
    }
  }

  const BYTE_ORDER_MARK: Bytes := [0xEF, 0xBB, 0xBF]

  function DropBom(s: Bytes): Bytes {
    if BYTE_ORDER_MARK <= s then s[3..] else s
  }

  /** `new TextDecoder("utf-8", { fatal: true }).decode(s)`, None standing for the thrown error. */
  function Decode(s: Bytes): Option<Bytes> {
    if ValidUtf8(s) then Some(DropBom(s)) else None
  }

  /** Decoding always gives well-formed text, and gives the bytes themselves exactly when no mark leads. */
  lemma DecodeValid(s: Bytes)
    ensures Decode(s).Some? ==> ValidUtf8(Decode(s).value)
    ensures Decode(s) == Some(s) <==> ValidUtf8(s) && !(BYTE_ORDER_MARK <= s)
  {
    if ValidUtf8(s) && BYTE_ORDER_MARK <= s {
      assert s[0] == 0xEF && Announced(s[0]) == 3;
    }
  }

  // ---- Trimming a character that a window cut in half (rebrand-inventory.ts:243-252) ----

  /** What the backwards walk decides once the last `back - 1` bytes were tails. */
  function TrimFrom(window: Bytes, back: nat): Bytes
    requires 1 <= back
    decreases 4 - back
  {
    if back > 3 || back > |window| then window
    else
      var b := window[|window| - back];
      if IsTail(b) then TrimFrom(window, back + 1)
      else if Announced(b) > back then window[..|window| - back]
      else window
  }

  function Trimmed(window: Bytes, truncated: bool): Bytes {
    if truncated then TrimFrom(window, 1) else window
  }

  method TrimSplitUtf8Sequence(window: Bytes, truncated: bool) returns (kept: Bytes)
    ensures kept == Trimmed(window, truncated)
  {
    if !truncated {
      return window;
    }
    var back := 1;
    while back <= 3 && back <= |window|
      invariant 1 <= back <= 4
      invariant TrimFrom(window, 1) == TrimFrom(window, back)
    {
      var b := window[|window| - back];
      if 0x80 <= b < 0xC0 {
        back := back + 1;
        continue;
      }
      var expected := if b >= 0xF0 then 4 else if b >= 0xE0 then 3 else if b >= 0xC0 then 2 else 1;
      return if expected > back then window[..|window| - back] else window;
    }
    return window;
  }

  ghost predicate LongestValidPrefix(p: Bytes, window: Bytes) {
    p <= window && ValidUtf8(p) && forall q | q <= window && ValidUtf8(q) :: |q| <= |p|
  }

  /** Every cut position lies inside or at the end of exactly one character: here is its start. */
  lemma {:induction false} CharAround(s: Bytes, cut: nat) returns (start: nat)
    requires ValidUtf8(s) && 0 < cut <= |s|
    ensures start < cut && ValidUtf8(s[..start]) && StartsWithChar(s[start..])
    ensures cut <= start + Announced(s[start])
  {
    var n := Announced(s[0]);
    if cut <= n {
      start := 0;
    } else {
      var rest := CharAround(s[n..], cut - n);
      start := n + rest;
      assert s[..start] == s[..n] + s[n..][..rest];
      assert s[start..] == s[n..][rest..];
      assert s[..n][n..] == [];
      ValidConcat(s[..n], s[n..][..rest]);
    }
  }

  /** A proper part of one character is not well-formed text. */
  lemma PartOfChar(s: Bytes, k: nat)
    requires StartsWithChar(s) && 0 < k < Announced(s[0])
    ensures !ValidUtf8(s[..k])
  {
  }

  lemma {:induction false} TrimSkipsTails(window: Bytes, back: nat, target: nat)
    requires 1 <= back <= target <= 4 && target <= |window| + 1
    requires forall i :: |window| - target < i <= |window| - back ==> IsTail(window[i])
    ensures TrimFrom(window, back) == TrimFrom(window, target)
    decreases target - back
  {
    if back < target {
      TrimSkipsTails(window, back + 1, target);
    }
  }

  /** Cutting inside a character: nothing between its start and the cut is a well-formed end. */
  lemma CutInside(s: Bytes, start: nat, cut: nat)
    requires start < cut <= |s| && ValidUtf8(s[..start]) && StartsWithChar(s[start..])
    requires cut < start + Announced(s[start])
    ensures LongestValidPrefix(s[..start], s[..cut])
  {
    forall q | q <= s[..cut] && ValidUtf8(q) ensures |q| <= start {
      if |q| > start {
        assert q == s[..start] + s[start..][..|q| - start];
        ValidConcat(s[..start], s[start..][..|q| - start]);
        PartOfChar(s[start..], |q| - start);
        assert false;
      }
    }
  }

  lemma CutAfter(s: Bytes, start: nat, cut: nat)
    requires start < cut <= |s| && ValidUtf8(s[..start]) && StartsWithChar(s[start..])
    requires cut == start + Announced(s[start])
    ensures ValidUtf8(s[..cut])
  {
    var c := s[start..cut];
    assert forall i :: 0 <= i < |c| ==> c[i] == s[start..][i];
    assert c[Announced(c[0])..] == [];
    assert ValidUtf8(c);
    ValidConcat(s[..start], c);
    assert s[..cut] == s[..start] + c;
  }

  /** The walk stops at the start of the character around the cut, unless that is four bytes back. */
  lemma TrimFindsStart(s: Bytes, start: nat, cut: nat)
    requires start < cut <= |s| && StartsWithChar(s[start..])
    requires cut <= start + Announced(s[start])
    ensures TrimFrom(s[..cut], 1) == if cut < start + Announced(s[start]) then s[..start] else s[..cut]
  {
    var window, back := s[..cut], cut - start;
    forall i | start < i < cut ensures IsTail(window[i]) {
      assert s[start..][i - start] == s[i];
    }
    TrimSkipsTails(window, 1, back);
    assert window[|window| - back] == s[start..][0];
  }

  /**
   * For well-formed text and every cut, trimming the window keeps its longest well-formed
   * prefix and gives up at most three bytes.
   */
  lemma TrimmedIsLongestValidPrefix(s: Bytes, cut: nat)
    requires ValidUtf8(s) && cut <= |s|
    ensures LongestValidPrefix(Trimmed(s[..cut], true), s[..cut])
    ensures cut <= |Trimmed(s[..cut], true)| + 3
  {
    if cut > 0 {
      var start := CharAround(s, cut);
      TrimFindsStart(s, start, cut);
      if cut < start + Announced(s[start]) {
        CutInside(s, start, cut);
      } else {
        CutAfter(s, start, cut);
      }
    }
  }
}
