/**
 * The canonical writer of scripts/release-evidence.ts: the prefix/name split, the 512-byte
 * ustar header filled in place, and the archive with its entries in byte order of path.
 */
module TarWriter {
  import opened Lists
  import opened Bytes
  import opened TarFormat

  // ---- Splitting a path over the name and prefix fields ----

  predicate Fits(path: Bytes, index: int) {
    && 0 < index < |path|
    && path[index] == SLASH
    && index <= 155
    && |path| - index - 1 <= 100
  }

  /** The largest fitting split point below `below`, 0 when there is none. */
  function LastFit(path: Bytes, below: nat): (index: nat)
    ensures index == 0 || (index < below && Fits(path, index))
    ensures forall i :: index < i < below ==> !Fits(path, i)
  {
    if below == 0 then 0
    else if Fits(path, below - 1) then below - 1
    else LastFit(path, below - 1)
  }

  datatype SplitPath = SplitPath(name: Bytes, prefix: Bytes)

  function UstarSplit(path: Bytes): Result<SplitPath, TarError> {
    if |path| <= 100 then Ok(SplitPath(path, []))
    else
      var index := LastFit(path, |path|);
      if index == 0 then Err(PathTooLong) else Ok(SplitPath(path[index + 1..], path[..index]))
  }

  /** The two fields are within their lengths and give the path back when joined. */
  lemma SplitJoins(path: Bytes)
    requires UstarSplit(path).Ok?
    ensures var s := UstarSplit(path).value;
            && |s.name| <= 100 && |s.prefix| <= 155
            && path == (if s.prefix == [] then s.name else s.prefix + [SLASH] + s.name)
  {
  }

  method SplitUstarPath(path: Bytes) returns (r: Result<SplitPath, TarError>)
    ensures r == UstarSplit(path)
  {
    if |path| <= 100 {
      return Ok(SplitPath(path, []));
    }
    var index := |path| - 1;
    while index > 0
      invariant 0 <= index < |path|
      invariant LastFit(path, |path|) == LastFit(path, index + 1)
    {
      if path[index] == SLASH {
        var prefix, name := path[..index], path[index + 1..];
        if |prefix| <= 155 && |name| <= 100 {
          return Ok(SplitPath(name, prefix));
        }
      }
      index := index - 1;
    }
    assert !Fits(path, 0);
    r := Err(PathTooLong);
  }

  // ---- Headers ----

  /** A NUL-terminated octal field of `length` bytes. */
  function OctalField(value: nat, length: nat): (field: Bytes)
    requires length > 0 && |OctalDigits(value)| <= length - 1
    ensures |field| == length
  {
    PaddedOctal(value, length - 1) + [0]
  }

  function TextField(text: Bytes, length: nat): (field: Bytes)
    requires |text| <= length
    ensures |field| == length
  {
    text + Zeros(length - |text|)
  }

  function DataSize(e: TarEntry): nat {
    if e.kind == File then |e.data| else 0
  }

  predicate SizeFits(e: TarEntry) {
    |OctalDigits(DataSize(e))| <= 11
  }

  lemma ModeDigits(mode: nat)
    ensures |OctalDigits(mode % 512)| <= 7 && |OctalDigits(0)| <= 7
  {
    OctalWidth(mode % 512, 3);
    assert Pow8(3) == 512;
  }

  const USTAR: Bytes := [0x75, 0x73, 0x74, 0x61, 0x72, 0]
  const VERSION: Bytes := [0x30, 0x30]

  function TypeByte(kind: EntryType): Byte {
    if kind == File then 0x30 else 0x35
  }

  /** Bytes 0 to 147: name, mode, uid, gid, size, mtime. */
  function HeaderStart(e: TarEntry, s: SplitPath): (h: Bytes)
    requires |s.name| <= 100 && SizeFits(e)
    ensures |h| == 148
  {
    ModeDigits(e.mode);
    TextField(s.name, 100) + OctalField(e.mode % 512, 8) + OctalField(0, 8) + OctalField(0, 8)
    + OctalField(DataSize(e), 12) + OctalField(0, 12)
  }

  /** Bytes 156 to 511: type, magic, version, prefix, and zeros elsewhere. */
  function HeaderEnd(e: TarEntry, s: SplitPath): (h: Bytes)
    requires |s.prefix| <= 155
    ensures |h| == 356
  {
    [TypeByte(e.kind)] + Zeros(100) + USTAR + VERSION + Zeros(80) + TextField(s.prefix, 155) + Zeros(12)
  }

  function Checksum(e: TarEntry, s: SplitPath): nat
    requires |s.name| <= 100 && |s.prefix| <= 155 && SizeFits(e)
  {
    Sum(HeaderStart(e, s)) + 8 * 0x20 + Sum(HeaderEnd(e, s))
  }

  lemma ChecksumDigits(e: TarEntry, s: SplitPath)
    requires |s.name| <= 100 && |s.prefix| <= 155 && SizeFits(e)
    ensures Checksum(e, s) < 262144 && |OctalDigits(Checksum(e, s))| <= 6
  {
    SumBound(HeaderStart(e, s));
    SumBound(HeaderEnd(e, s));
    OctalWidth(Checksum(e, s), 6);
    assert Pow8(6) == 8 * 8 * 8 * Pow8(3);
  }

  function ChecksumField(e: TarEntry, s: SplitPath): (f: Bytes)
    requires |s.name| <= 100 && |s.prefix| <= 155 && SizeFits(e)
    ensures |f| == 8
  {
    ChecksumDigits(e, s);
    PaddedOctal(Checksum(e, s), 6) + [0, 0x20]
  }

  function HeaderBytes(e: TarEntry, s: SplitPath): (h: Bytes)
    requires |s.name| <= 100 && |s.prefix| <= 155 && SizeFits(e)
    ensures |h| == 512
  {
    HeaderStart(e, s) + ChecksumField(e, s) + HeaderEnd(e, s)
  }

  function CanonicalHeader(e: TarEntry): (r: Result<Bytes, TarError>)
    ensures r.Ok? ==> |r.value| == 512
    ensures r.Ok? <==> UstarSplit(e.path).Ok? && SizeFits(e)
  {
    var s :- UstarSplit(e.path);
    SplitJoins(e.path);
    if SizeFits(e) then Ok(HeaderBytes(e, s)) else Err(SizeTooLarge)
  }

  // ---- The header buffer, filled in place ----

  function Splice(s: Bytes, offset: nat, value: Bytes): Bytes
    requires offset + |value| <= |s|
  {
    s[..offset] + value + s[offset + |value|..]
  }

  /** Writing after a finished part and a gap extends the part and shortens the zero tail. */
  lemma SpliceTail(done: Bytes, tail: nat, gap: nat, value: Bytes)
    requires gap + |value| <= tail
    ensures Splice(done + Zeros(tail), |done| + gap, value)
         == done + Zeros(gap) + value + Zeros(tail - gap - |value|)
  {
  }

  method WriteTarString(header: array<Byte>, offset: nat, length: nat, value: Bytes) returns (fits: bool)
    requires offset + length <= header.Length
    modifies header
    ensures fits == (|value| <= length)
    ensures header[..] == if fits then Splice(old(header[..]), offset, value) else old(header[..])
  {
    fits := |value| <= length;
    if fits {
      forall i | 0 <= i < |value| {
        header[offset + i] := value[i];
      }
    }
  }

  method WriteTarOctal(header: array<Byte>, offset: nat, length: nat, value: nat) returns (fits: bool)
    requires 0 < length && offset + length <= header.Length
    modifies header
    ensures fits == (|OctalDigits(value)| <= length - 1)
    ensures header[..] == if fits then Splice(old(header[..]), offset, OctalField(value, length)) else old(header[..])
  {
    fits := |OctalDigits(value)| <= length - 1;
    if fits {
      var written := WriteTarString(header, offset, length - 1, PaddedOctal(value, length - 1));
      header[offset + length - 1] := 0;
    }
  }

  /** Writes into the zero tail behind the finished part of the header. */
  method WriteAfter(header: array<Byte>, offset: nat, length: nat, value: Bytes, ghost done: Bytes)
    requires header.Length == 512 && |done| <= offset && offset + length <= 512 && |value| <= length
    requires header[..] == done + Zeros(512 - |done|)
    modifies header
    ensures header[..] == done + Zeros(offset - |done|) + value + Zeros(512 - offset - |value|)
  {
    var fits := WriteTarString(header, offset, length, value);
    SpliceTail(done, 512 - |done|, offset - |done|, value);
  }

  method WriteOctalAfter(header: array<Byte>, offset: nat, length: nat, value: nat, ghost done: Bytes) returns (fits: bool)
    requires header.Length == 512 && |done| == offset && 0 < length && offset + length <= 512
    requires header[..] == done + Zeros(512 - offset)
    modifies header
    ensures fits == (|OctalDigits(value)| <= length - 1)
    ensures fits ==> header[..] == done + OctalField(value, length) + Zeros(512 - offset - length)
  {
    fits := WriteTarOctal(header, offset, length, value);
    if fits {
      SpliceTail(done, 512 - offset, 0, OctalField(value, length));
    }
  }

  /** name, mode, uid, gid, size and mtime. */
  method WriteHeaderStart(header: array<Byte>, e: TarEntry, s: SplitPath) returns (fits: bool)
    requires header.Length == 512 && header[..] == Zeros(512)
    requires |s.name| <= 100
    modifies header
    ensures fits == SizeFits(e)
    ensures fits ==> header[..] == HeaderStart(e, s) + Zeros(364)
  {
    hide OctalDigits, OctalField, TextField;
    ModeDigits(e.mode);
    var ok := WriteTarString(header, 0, 100, s.name);
    NameField(s.name);
    ghost var x := TextField(s.name, 100);
    ok := WriteOctalAfter(header, 100, 8, e.mode % 512, x);
    x := x + OctalField(e.mode % 512, 8);
    assert header[..] == x + Zeros(404);
    ok := WriteOctalAfter(header, 108, 8, 0, x);
    x := x + OctalField(0, 8);
    assert header[..] == x + Zeros(396);
    ok := WriteOctalAfter(header, 116, 8, 0, x);
    x := x + OctalField(0, 8);
    assert header[..] == x + Zeros(388);
    fits := WriteOctalAfter(header, 124, 12, if e.kind == File then |e.data| else 0, x);
    if fits {
      x := x + OctalField(DataSize(e), 12);
      assert header[..] == x + Zeros(376);
      ok := WriteOctalAfter(header, 136, 12, 0, x);
      x := x + OctalField(0, 12);
      assert header[..] == x + Zeros(364);
    }
  }

  lemma NameField(name: Bytes)
    requires |name| <= 100
    ensures Splice(Zeros(512), 0, name) == TextField(name, 100) + Zeros(412)
  {
  }

  /** Blanks for the checksum, then type, magic, version and prefix. */
  method WriteHeaderEnd(header: array<Byte>, e: TarEntry, s: SplitPath, ghost start: Bytes)
    requires header.Length == 512 && |s.prefix| <= 155 && |start| == 148
    requires header[..] == start + Zeros(364)
    modifies header
    ensures header[..] == start + Fill(0x20, 8) + HeaderEnd(e, s)
  {
    hide HeaderEnd;
    assert start + Zeros(0) == start;
    WriteAfter(header, 148, 8, Fill(0x20, 8), start);
    ghost var x := start + Fill(0x20, 8);
    WriteAfter(header, 156, 1, [if e.kind == File then 0x30 else 0x35], x);
    assert x + Zeros(0) == x;
    x := x + [TypeByte(e.kind)];
    WriteAfter(header, 257, 6, USTAR, x);
    x := x + Zeros(100) + USTAR;
    WriteAfter(header, 263, 2, VERSION, x);
    assert x + Zeros(0) == x;
    x := x + VERSION;
    WriteAfter(header, 345, 155, s.prefix, x);
    HeaderEndShape(start + Fill(0x20, 8), e, s);
  }

  lemma HeaderEndShape(before: Bytes, e: TarEntry, s: SplitPath)
    requires |s.prefix| <= 155
    ensures before + [TypeByte(e.kind)] + Zeros(100) + USTAR + VERSION + Zeros(80) + s.prefix + Zeros(167 - |s.prefix|)
         == before + HeaderEnd(e, s)
  {
    var x := [TypeByte(e.kind)] + Zeros(100) + USTAR + VERSION + Zeros(80);
    assert s.prefix + Zeros(167 - |s.prefix|) == TextField(s.prefix, 155) + Zeros(12);
    assert HeaderEnd(e, s) == x + (s.prefix + Zeros(167 - |s.prefix|));
  }

  /** The digits, a NUL and a blank replace the eight blanks the sum was taken over. */
  method WriteChecksum(header: array<Byte>, checksum: nat, ghost before: Bytes, ghost after: Bytes)
    requires header.Length == 512 && |before| == 148 && header[..] == before + Fill(0x20, 8) + after
    requires |OctalDigits(checksum)| <= 6
    modifies header
    ensures header[..] == before + (PaddedOctal(checksum, 6) + [0, 0x20]) + after
  {
    hide OctalDigits, PaddedOctal;
    var fits := WriteTarString(header, 148, 6, PaddedOctal(checksum, 6));
    header[154] := 0;
    header[155] := 0x20;
  }

  lemma {:induction false} SumFill(b: Byte, n: nat)
    ensures Sum(Fill(b, n)) == n * b
  {
    if n > 0 {
      assert Fill(b, n)[1..] == Fill(b, n - 1);
      SumFill(b, n - 1);
    }
  }

  method SumBytes(bytes: array<Byte>) returns (sum: nat)
    ensures sum == Sum(bytes[..])
  {
    sum := 0;
    for i := 0 to bytes.Length
      invariant sum == Sum(bytes[..i])
    {
      assert bytes[..i + 1] == bytes[..i] + [bytes[i]];
      SumConcat(bytes[..i], [bytes[i]]);
      sum := sum + bytes[i];
    }
    assert bytes[..bytes.Length] == bytes[..];
  }

  method CanonicalTarHeader(e: TarEntry) returns (r: Result<Bytes, TarError>)
    ensures r == CanonicalHeader(e)
  {
    hide HeaderStart, HeaderEnd, OctalDigits, PaddedOctal, SizeFits, UstarSplit, Sum;
    var split := SplitUstarPath(e.path);
    if split.Err? {
      return Err(split.error);
    }
    var s := split.value;
    SplitJoins(e.path);
    var header := new Byte[512](_ => 0);
    assert header[..] == Zeros(512);
    var fits := WriteHeaderStart(header, e, s);
    if !fits {
      return Err(SizeTooLarge);
    }
    WriteHeaderEnd(header, e, s, HeaderStart(e, s));
    var checksum := SumBytes(header);
    SumConcat(HeaderStart(e, s) + Fill(0x20, 8), HeaderEnd(e, s));
    SumConcat(HeaderStart(e, s), Fill(0x20, 8));
    SumFill(0x20, 8);
    ChecksumDigits(e, s);
    WriteChecksum(header, checksum, HeaderStart(e, s), HeaderEnd(e, s));
    r := Ok(header[..]);
  }

  // ---- Archives ----

  function Body(e: TarEntry): Bytes {
    if e.kind == File then e.data + Zeros((512 - |e.data| % 512) % 512) else []
  }

  lemma BodySize(e: TarEntry)
    ensures |Body(e)| == PaddedSize(DataSize(e))
  {
  }

  /** The members one after another, as long as every header can be written. */
  function Members(entries: seq<TarEntry>): Result<Bytes, TarError> {
    if entries == [] then Ok([])
    else
      var header :- CanonicalHeader(entries[0]);
      var rest :- Members(entries[1..]);
      Ok(header + Body(entries[0]) + rest)
  }

  predicate PathLess(a: TarEntry, b: TarEntry) {
    LexLess(a.path, b.path)
  }

  function Insert(e: TarEntry, sorted: seq<TarEntry>): seq<TarEntry> {
    if sorted == [] || !PathLess(sorted[0], e) then [e] + sorted
    else [sorted[0]] + Insert(e, sorted[1..])
  }

  /** `[...entries].sort(byPath)`; entry paths are distinct, so stability does not matter. */
  function SortByPath(entries: seq<TarEntry>): seq<TarEntry> {
    if entries == [] then [] else Insert(entries[0], SortByPath(entries[1..]))
  }

  function CreateArchive(entries: seq<TarEntry>): Result<Bytes, TarError> {
    var members :- Members(SortByPath(entries));
    Ok(members + Zeros(1024))
  }

  function Prepend(head: Bytes, tail: Result<Bytes, TarError>): Result<Bytes, TarError> {
    var t :- tail;
    Ok(head + t)
  }

  lemma MembersStep(output: Bytes, entries: seq<TarEntry>)
    requires entries != [] && CanonicalHeader(entries[0]).Ok?
    ensures Prepend(output, Members(entries))
         == Prepend(output + (CanonicalHeader(entries[0]).value + Body(entries[0])), Members(entries[1..]))
  {
    hide CanonicalHeader, Body;
    var block := CanonicalHeader(entries[0]).value + Body(entries[0]);
    if Members(entries[1..]).Ok? {
      assert output + (block + Members(entries[1..]).value) == output + block + Members(entries[1..]).value;
    }
  }

  method CreateCanonicalTarball(entries: seq<TarEntry>) returns (r: Result<Bytes, TarError>)
    ensures r == CreateArchive(entries)
  {
    hide CanonicalHeader, Members, SortByPath;
    var ordered := SortByPath(entries);
    var output: Bytes, index := [], 0;
    assert ordered[0..] == ordered && forall t: Bytes :: [] + t == t;
    while index < |ordered|
      invariant 0 <= index <= |ordered|
      invariant Members(ordered) == Prepend(output, Members(ordered[index..]))
    {
      var e := ordered[index];
      var header := CanonicalTarHeader(e);
      if header.Err? {
        MembersFail(ordered[index..]);
        return Err(header.error);
      }
      MembersStep(output, ordered[index..]);
      ghost var before := output;
      output := output + header.value;
      if e.kind == File {
        output := output + e.data;
        var padding := (512 - |e.data| % 512) % 512;
        if padding > 0 {
          output := output + Zeros(padding);
        }
      }
      assert output == before + (header.value + Body(e));
      assert ordered[index..][1..] == ordered[index + 1..];
      index := index + 1;
    }
    MembersEmpty(ordered[index..]);
    assert output + [] == output;
    r := Ok(output + Zeros(1024));
  }

  lemma MembersFail(entries: seq<TarEntry>)
    requires entries != [] && CanonicalHeader(entries[0]).Err?
    ensures Members(entries) == Err(CanonicalHeader(entries[0]).error)
  {
  }

  lemma MembersEmpty(entries: seq<TarEntry>)
    requires entries == []
    ensures Members(entries) == Ok([])
  {
  }
}
