/**
 * The two file loops of scripts/dev-link.ts: a search through chunks that carries an overlap
 * from one to the next, and a read that must see exactly the bytes it was told to expect.
 */
module ChunkedSearch {
  import opened Lists
  import opened Bytes

  predicate OccursAt(s: Bytes, needle: Bytes, i: int) {
    0 <= i <= |s| - |needle| && s[i..i + |needle|] == needle
  }

  predicate Occurs(s: Bytes, needle: Bytes) {
    exists i :: 0 <= i <= |s| && OccursAt(s, needle, i)
  }

  /** How many bytes a read returns: any number up to what is asked for and there, but none only at the end. */
  function Count(answer: nat, available: nat): (n: nat)
    ensures n <= available && (n == 0 <==> available == 0)
  {
    if available == 0 then 0 else if answer == 0 then 1 else if answer > available then available else answer
  }

  function Min(a: int, b: int): int {
    if a < b then a else b
  }

  /** readSync: None is a call that threw, otherwise the bytes that arrived in the buffer. */
  method ReadInto(content: Bytes, buffer: array<Byte>, offset: nat, length: nat, position: nat, answer: Option<nat>)
    returns (read: Option<nat>)
    requires offset + length <= buffer.Length
    modifies buffer
    ensures read.Some? <==> answer.Some?
    ensures read.Some? ==> read.value == Count(answer.value, Min(length, if position < |content| then |content| - position else 0))
    ensures read.Some? && read.value > 0 ==>
              position + read.value <= |content|
              && buffer[offset..offset + read.value] == content[position..position + read.value]
    ensures buffer[..offset] == old(buffer[..offset])
  {
    if answer.None? {
      return None;
    }
    var n := Count(answer.value, Min(length, if position < |content| then |content| - position else 0));
    if n > 0 {
      forall i | 0 <= i < n {
        buffer[offset + i] := content[position + i];
      }
    }
    read := Some(n);
  }

  /** The end of what was read moves to the front of the same buffer. */
  method MoveTail(buffer: array<Byte>, total: nat, kept: nat)
    requires kept <= total <= buffer.Length
    modifies buffer
    ensures buffer[..kept] == old(buffer[..total])[total - kept..]
  {
    ghost var was := buffer[..total];
    forall i | 0 <= i < kept {
      buffer[i] := buffer[total - kept + i];
    }
    assert buffer[..kept] == was[total - kept..];
  }

  const CHUNK_BYTES := 65536

  /** What has been searched: no match ends at or before `position`. */
  ghost predicate Searched(content: Bytes, needle: Bytes, position: nat) {
    forall i :: OccursAt(content, needle, i) ==> i + |needle| > position
  }

  lemma Subslice(s: Bytes, a: nat, b: nat, i: nat, j: nat)
    requires a <= b <= |s| && i <= j <= b - a
    ensures s[a..b][i..j] == s[a + i..a + j]
  {
    var left, right := s[a..b][i..j], s[a + i..a + j];
    assert |left| == |right|;
    assert forall k :: 0 <= k < |left| ==> left[k] == right[k];
  }

  lemma Adjacent(s: Bytes, a: nat, b: nat, c: nat)
    requires a <= b <= c <= |s|
    ensures s[a..b] + s[b..c] == s[a..c]
  {
  }

  /** A match that ends in the new chunk begins in the overlap or later. */
  lemma WindowSees(content: Bytes, needle: Bytes, position: nat, overlap: nat, read: nat)
    requires needle != [] && position + read <= |content|
    requires overlap == Min(|needle| - 1, position)
    requires Searched(content, needle, position)
    ensures Occurs(content[position - overlap..position + read], needle) ==> Occurs(content, needle)
    ensures !Occurs(content[position - overlap..position + read], needle) ==> Searched(content, needle, position + read)
  {
    var start := position - overlap;
    var window := content[start..position + read];
    forall i | OccursAt(window, needle, i) ensures OccursAt(content, needle, start + i) {
      Subslice(content, start, position + read, i, i + |needle|);
    }
    forall i | OccursAt(content, needle, i) && i + |needle| <= position + read ensures OccursAt(window, needle, i - start) {
      assert i >= start;
      Subslice(content, start, position + read, i - start, i - start + |needle|);
    }
  }

  lemma SearchedAll(content: Bytes, needle: Bytes, position: nat, size: nat)
    requires Searched(content, needle, position) && (position >= size || position >= |content|)
    ensures !Occurs(content[..Min(size, |content|)], needle)
  {
    var known := content[..Min(size, |content|)];
    forall i | OccursAt(known, needle, i) ensures OccursAt(content, needle, i) {
      assert known[i..i + |needle|] == content[i..i + |needle|];
    }
  }

  /** One read behind the overlap: the buffer then holds a contiguous piece of the file. */
  method ReadChunk(content: Bytes, buffer: array<Byte>, overlap: nat, position: nat, answer: Option<nat>)
    returns (read: Option<nat>)
    requires overlap + CHUNK_BYTES <= buffer.Length && overlap <= position <= |content|
    requires buffer[..overlap] == content[position - overlap..position]
    modifies buffer
    ensures read.Some? <==> answer.Some?
    ensures read.Some? ==> read.value <= CHUNK_BYTES && position + read.value <= |content|
    ensures read.Some? ==> buffer[..overlap + read.value] == content[position - overlap..position + read.value]
    ensures read.Some? && read.value == 0 ==> position == |content|
  {
    read := ReadInto(content, buffer, overlap, CHUNK_BYTES, position, answer);
    if read.Some? {
      var total := overlap + read.value;
      assert buffer[..total] == buffer[..overlap] + buffer[overlap..total];
      Adjacent(content, position - overlap, position, position + read.value);
    }
  }

  /**
   * fileContainsBytes. `size` is what stat said and `content` what reads return; `answers` says how
   * short each read falls. A match reported is a match, and unless a read throws, a match
   * within the size is reported, wherever the chunks and the short reads cut it.
   */
  method FileContainsBytes(content: Bytes, size: nat, needle: Bytes, answers: nat -> Option<nat>) returns (found: bool)
    requires needle != []
    ensures found ==> Occurs(content, needle)
    ensures (forall n :: answers(n).Some?) && Occurs(content[..Min(size, |content|)], needle) ==> found
    ensures (forall n :: answers(n).Some?) && size == |content| ==> (found <==> Occurs(content, needle))
  {
    hide Occurs, Searched;
    WholeFile(content, size);
    if size < |needle| {
      assert !Occurs(content[..Min(size, |content|)], needle) by { TooShort(content[..Min(size, |content|)], needle); }
      return false;
    }
    var buffer := new Byte[CHUNK_BYTES + |needle| - 1];
    var overlap, position, calls := 0, 0, 0;
    assert Searched(content, needle, 0) by { NothingSearched(content, needle); }
    while position < size
      invariant position <= |content| && overlap == Min(|needle| - 1, position)
      invariant buffer[..overlap] == content[position - overlap..position]
      invariant Searched(content, needle, position)
      decreases |content| - position
    {
      var read := ReadChunk(content, buffer, overlap, position, answers(calls));
      calls := calls + 1;
      if read.None? {
        return false;
      }
      if read.value == 0 {
        SearchedAll(content, needle, position, size);
        return false;
      }
      var total := overlap + read.value;
      ghost var window := content[position - overlap..position + read.value];
      WindowSees(content, needle, position, overlap, read.value);
      if Occurs(buffer[..total], needle) {
        return true;
      }
      var kept := Min(|needle| - 1, total);
      MoveTail(buffer, total, kept);
      assert window[total - kept..] == content[position + read.value - kept..position + read.value] by {
        Subslice(content, position - overlap, position + read.value, total - kept, total);
        assert window[total - kept..] == window[total - kept..total];
      }
      overlap, position := kept, position + read.value;
    }
    SearchedAll(content, needle, position, size);
    found := false;
  }

  lemma WholeFile(content: Bytes, size: nat)
    ensures size == |content| ==> content[..Min(size, |content|)] == content
  {
  }

  lemma TooShort(s: Bytes, needle: Bytes)
    requires |s| < |needle|
    ensures !Occurs(s, needle)
  {
  }

  lemma NothingSearched(content: Bytes, needle: Bytes)
    requires needle != []
    ensures Searched(content, needle, 0)
  {
  }

  /**
   * readBoundedFile. The bytes are returned exactly when the size stat reported is within bounds
   * and is what the file still holds; a file that shrank or grew in between is refused.
   */
  method ReadBoundedFile(content: Bytes, size: nat, maxBytes: nat, answers: nat -> Option<nat>) returns (r: Option<Bytes>)
    ensures r.Some? ==> r.value == content && |content| == size && 0 < size <= maxBytes
    ensures (forall n :: answers(n).Some?) ==> (r.Some? <==> |content| == size && 0 < size <= maxBytes)
  {
    if size == 0 || size > maxBytes {
      return None;
    }
    var result := new Byte[size];
    var offset, calls := 0, 0;
    while offset < result.Length
      invariant offset <= result.Length && offset <= |content|
      invariant result[..offset] == content[..offset]
      decreases result.Length - offset
    {
      var read := ReadInto(content, result, offset, result.Length - offset, offset, answers(calls));
      calls := calls + 1;
      if read.None? || read.value == 0 {
        return None;
      }
      assert result[..offset + read.value] == result[..offset] + result[offset..offset + read.value];
      offset := offset + read.value;
    }
    var overflow := new Byte[1];
    var extra := ReadInto(content, overflow, 0, 1, offset, answers(calls));
    if extra.None? || extra.value != 0 {
      return None;
    }
    assert result[..] == result[..offset] && content[..offset] == content;
    r := Some(result[..]);
  }
}
