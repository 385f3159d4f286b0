/**
 * Reading back what the canonical writer wrote, header field by header field and block by block.
 *
 * The parser drops a byte-order mark in front of a name field. A path of more than 100
 * bytes whose part after the split starts with U+FEFF therefore does not survive, and
 * every result below says exactly what that costs.
 */
module TarCanonical {
  import opened Lists
  import opened Bytes
  import opened Utf8
  import opened TarFormat
  import opened TarParser
  import opened TarWriter
  import opened TarEntries

  /** The path needs the prefix field and its name part starts with a byte-order mark. */
  predicate MarkAfterSplit(path: Bytes) {
    |path| > 100 && BYTE_ORDER_MARK <= path[LastFit(path, |path|) + 1..]
  }

  predicate NoMarks(entries: seq<TarEntry>) {
    forall i :: 0 <= i < |entries| ==> !MarkAfterSplit(entries[i].path)
  }

  // ---- The fields of a written header ----

  lemma TextFieldReads(text: Bytes, length: nat)
    requires |text| <= length && 0 !in text
    ensures UpToNul(TextField(text, length)) == text
  {
    var field := TextField(text, length);
    assert field[..|text|] == text;
    IndexOfAt(field, 0, |text|);
  }

  /** Where the writer put each field that the parser looks at. */
  lemma StartFields(e: TarEntry, s: SplitPath)
    requires |s.name| <= 100 && SizeFits(e)
    ensures var h := HeaderStart(e, s);
            && h[0..100] == TextField(s.name, 100)
            && h[124..136] == OctalField(DataSize(e), 12)
    ensures |OctalDigits(e.mode % 512)| <= 7 && HeaderStart(e, s)[100..108] == OctalField(e.mode % 512, 8)
  {
    hide OctalDigits;
    ModeDigits(e.mode);
    var name, mode, ids := TextField(s.name, 100), OctalField(e.mode % 512, 8), OctalField(0, 8) + OctalField(0, 8);
    var size, mtime := OctalField(DataSize(e), 12), OctalField(0, 12);
    assert HeaderStart(e, s) == name + mode + (ids + size + mtime);
    SliceMiddle(name, mode, ids + size + mtime);
    assert HeaderStart(e, s) == (name + mode + ids) + size + mtime;
    SliceMiddle(name + mode + ids, size, mtime);
  }

  lemma EndFields(e: TarEntry, s: SplitPath)
    requires |s.prefix| <= 155
    ensures HeaderEnd(e, s)[0] == TypeByte(e.kind)
    ensures HeaderEnd(e, s)[189..344] == TextField(s.prefix, 155)
  {
    var x := [TypeByte(e.kind)] + Zeros(100) + USTAR + VERSION + Zeros(80);
    SliceMiddle(x, TextField(s.prefix, 155), Zeros(12));
  }

  lemma HeaderParts(e: TarEntry, s: SplitPath)
    requires |s.name| <= 100 && |s.prefix| <= 155 && SizeFits(e)
    ensures var h := HeaderBytes(e, s);
            && h[..148] == HeaderStart(e, s) && h[148..156] == ChecksumField(e, s) && h[156..] == HeaderEnd(e, s)
            && h[0..100] == HeaderStart(e, s)[0..100]
            && h[100..108] == HeaderStart(e, s)[100..108]
            && h[124..136] == HeaderStart(e, s)[124..136]
            && h[156] == HeaderEnd(e, s)[0]
            && h[345..500] == HeaderEnd(e, s)[189..344]
  {
    hide HeaderStart, HeaderEnd, ChecksumField, SizeFits;
    var h := HeaderBytes(e, s);
    SliceMiddle(HeaderStart(e, s), ChecksumField(e, s), HeaderEnd(e, s));
    assert h[0..100] == h[..148][0..100] && h[100..108] == h[..148][100..108] && h[124..136] == h[..148][124..136];
    assert h[345..500] == h[156..][189..344];
  }

  /** The stored checksum is the sum the parser computes. */
  lemma ChecksumReads(e: TarEntry, s: SplitPath)
    requires |s.name| <= 100 && |s.prefix| <= 155 && SizeFits(e)
    ensures CheckChecksum(HeaderBytes(e, s)) == Ok(())
  {
    hide HeaderStart, HeaderEnd, HeaderBytes, ParseOctal;
    HeaderParts(e, s);
    ChecksumDigits(e, s);
    OctalFieldRoundTrip(Checksum(e, s), 6, [0, 0x20]);
  }

  lemma SizeReads(e: TarEntry)
    requires SizeFits(e)
    ensures ParseOctal(OctalField(DataSize(e), 12)) == Ok(DataSize(e))
  {
    OctalWidth(DataSize(e), 11);
    assert Pow8(11) == 8 * 8 * 8 * 8 * 8 * Pow8(6) && Pow8(6) == 8 * 8 * 8 * Pow8(3) && Pow8(3) == 512;
    OctalFieldRoundTrip(DataSize(e), 11, [0]);
  }

  lemma ModeReads(mode: nat)
    requires mode < 512 && |OctalDigits(mode % 512)| <= 7
    ensures ParseOctal(OctalField(mode % 512, 8)) == Ok(mode)
  {
    OctalFieldRoundTrip(mode, 7, [0]);
  }

  /** Both halves of a safe, well-formed path are text a field can hold; only the name can lead with a mark. */
  lemma SplitReads(path: Bytes)
    requires ValidUtf8(path) && SafePath(path) && UstarSplit(path).Ok?
    ensures var s := UstarSplit(path).value;
            && 0 !in s.name && 0 !in s.prefix
            && ValidUtf8(s.name) && ValidUtf8(s.prefix)
            && DropBom(s.prefix) == s.prefix
            && (|path| <= 100 ==> DropBom(s.name) == s.name)
    ensures MarkAfterSplit(path) <==> BYTE_ORDER_MARK <= UstarSplit(path).value.name
  {
    hide ValidUtf8, SafePath;
    var s := UstarSplit(path).value;
    SafePathBytes(path);
    if |path| > 100 {
      assert path == s.prefix + [SLASH] + s.name;
      SplitAroundAscii(s.prefix, SLASH, s.name);
    } else {
      assert ValidUtf8([]) by {
        ValidEmpty();
      }
    }
  }

  lemma ValidEmpty()
    ensures ValidUtf8([])
  {
  }

  /** What the parser makes of the name and prefix of `path`. */
  function ReadBackPath(path: Bytes): Bytes
    requires UstarSplit(path).Ok?
  {
    var s := UstarSplit(path).value;
    if s.prefix == [] then DropBom(s.name) else s.prefix + [SLASH] + DropBom(s.name)
  }

  lemma ReadBackPathKeeps(path: Bytes)
    requires ValidUtf8(path) && SafePath(path) && UstarSplit(path).Ok?
    ensures if MarkAfterSplit(path) then |ReadBackPath(path)| == |path| - 3 else ReadBackPath(path) == path
  {
    hide ValidUtf8, SafePath;
    SplitReads(path);
    SplitJoins(path);
  }

  /** Fields stored at their offsets are read from there. */
  lemma FieldsRead(h: Bytes, name: Bytes, prefix: Bytes, size: nat)
    requires |h| == 512 && UpToNul(h[0..100]) == name && UpToNul(h[345..500]) == prefix
    requires ValidUtf8(name) && ValidUtf8(prefix) && DropBom(prefix) == prefix
    requires ParseOctal(h[124..136]) == Ok(size)
    ensures ReadFields(h) == Ok(HeaderFields(DropBom(name), prefix, size, h[156]))
  {
    hide ParseOctal, ValidUtf8, UpToNul, DropBom;
  }

  /** Reading a written header gives its fields back, up to a mark in front of the name. */
  lemma HeaderReads(e: TarEntry)
    requires WellFormed(e) && CanonicalHeader(e).Ok?
    ensures var h, s := CanonicalHeader(e).value, UstarSplit(e.path).value;
            && ReadHeader(h) == Ok(HeaderFields(DropBom(s.name), s.prefix, DataSize(e), TypeByte(e.kind)))
            && UpToNul(h[0..100]) == s.name && UpToNul(h[345..500]) == s.prefix
            && ParseOctal(h[100..108]) == Ok(e.mode)
            && !AllZero(h)
  {
    hide HeaderStart, HeaderEnd, HeaderBytes, ParseOctal, OctalDigits, OctalField, TextField, ValidUtf8, SafePath,
      CheckChecksum, UstarSplit, UpToNul, DropBom, SizeFits, ReadFields;
    var s := UstarSplit(e.path).value;
    SplitJoins(e.path);
    var h := HeaderBytes(e, s);
    SplitReads(e.path);
    HeaderParts(e, s);
    StartFields(e, s);
    EndFields(e, s);
    TextFieldReads(s.name, 100);
    TextFieldReads(s.prefix, 155);
    SizeReads(e);
    FieldsRead(h, s.name, s.prefix, DataSize(e));
    ChecksumReads(e, s);
    ModeReads(e.mode);
    assert h[156] != 0;
  }

  // ---- Reading one member, then all of them ----

  function ReadBack(e: TarEntry): TarEntry {
    if UstarSplit(e.path).Ok? then e.(path := ReadBackPath(e.path)) else e
  }

  function ReadBackAll(entries: seq<TarEntry>): (r: seq<TarEntry>)
    ensures |r| == |entries|
  {
    if entries == [] then [] else [ReadBack(entries[0])] + ReadBackAll(entries[1..])
  }

  /** The state after a member, if nothing about it is refused. */
  function WithMember(e: TarEntry, st: ParseState): ParseState {
    ParseState(st.entries + [e], None, st.totalFileBytes + DataSize(e),
               if e.kind == File then st.fileCount + 1 else st.fileCount)
  }

  predicate Acceptable(e: TarEntry, limits: Limits, st: ParseState) {
    && SafePath(e.path)
    && e.path !in Paths(st.entries)
    && (e.kind == File ==>
          && st.fileCount + 1 <= limits.maxFileCount
          && st.totalFileBytes + DataSize(e) <= limits.maxUnpackedBytes)
  }

  /** A header that stores an entry's mode, size and type makes the parser add that entry. */
  lemma MemberReads(h: Bytes, fields: HeaderFields, e: TarEntry, limits: Limits, st: ParseState)
    requires |h| == 512 && ParseOctal(h[100..108]) == Ok(e.mode) && st.pendingPath == None
    requires fields.size == DataSize(e) && fields.typeByte == TypeByte(e.kind) && e.path == EntryPath(fields, None)
    requires SafeMode(e.mode)
    ensures var r := TakeBlock(h, fields, e.data, limits, st);
            && (r.Ok? <==> Acceptable(e, limits, st))
            && (r.Ok? ==> r.value == WithMember(e, st))
  {
    hide ParseOctal, SafePath, Paths;
    assert KindOf(fields.typeByte) == Some(e.kind);
    assert TakeBlock(h, fields, e.data, limits, st) == AcceptMember(h, fields, e.data, limits, st);
  }

  /** The first block of a header, a body and anything after them. */
  lemma BlockCut(h: Bytes, e: TarEntry, tail: Bytes)
    requires |h| == 512 && (e.kind == Directory ==> e.data == [])
    ensures var rest := h + Body(e) + tail;
            var length := 512 + PaddedSize(DataSize(e));
            && |rest| >= length && rest[length..] == tail && rest[..512] == h
            && rest[512..512 + DataSize(e)] == e.data
  {
    BodySize(e);
    var rest := h + Body(e) + tail;
    SliceMiddle(h, Body(e), tail);
    assert rest[512..512 + DataSize(e)] == Body(e)[..DataSize(e)];
  }

  lemma BlockReads(e: TarEntry, tail: Bytes, limits: Limits, st: ParseState)
    requires WellFormed(e) && CanonicalHeader(e).Ok? && st.pendingPath == None
    requires |e.data| <= limits.maxEntryBytes
    ensures var rest := CanonicalHeader(e).value + Body(e) + tail;
            var length := 512 + PaddedSize(DataSize(e));
            && |rest| >= length && rest[length..] == tail && !AllZero(rest[..512])
            && var r := ReadBlock(rest, limits, st);
            && (r.Ok? <==> Acceptable(ReadBack(e), limits, st))
            && (r.Ok? ==> r.value == Block(WithMember(ReadBack(e), st), length))
  {
    hide ReadHeader, TakeBlock, CanonicalHeader, Acceptable, AllZero, ParseOctal, SafePath, ValidUtf8, UstarSplit, Body, WithMember;
    var h, s := CanonicalHeader(e).value, UstarSplit(e.path).value;
    var fields := HeaderFields(DropBom(s.name), s.prefix, DataSize(e), TypeByte(e.kind));
    HeaderReads(e);
    MemberReads(h, fields, ReadBack(e), limits, st);
    BlockCut(h, e, tail);
  }

  lemma AppendAll(st: ParseState, e: TarEntry, rest: seq<TarEntry>)
    ensures WithMember(e, st).entries + rest == st.entries + ([e] + rest)
  {
  }

  /** The archive ends: two zero blocks and nothing else. */
  lemma TerminatorReads(limits: Limits, st: ParseState)
    requires st.pendingPath == None
    ensures ParseFrom([] + Zeros(1024), limits, st) == Ok(st.entries)
  {
  }

  /** Unfolds the parser and the writer by one member. */
  lemma ParseStep(entries: seq<TarEntry>, limits: Limits, st: ParseState)
    requires entries != [] && Members(entries).Ok? && WellFormed(entries[0]) && st.pendingPath == None
    requires |entries[0].data| <= limits.maxEntryBytes
    ensures Members(entries[1..]).Ok?
    ensures var whole, tail := Members(entries).value + Zeros(1024), Members(entries[1..]).value + Zeros(1024);
            var e := ReadBack(entries[0]);
            if Acceptable(e, limits, st)
            then ParseFrom(whole, limits, st) == ParseFrom(tail, limits, WithMember(e, st))
            else ParseFrom(whole, limits, st).Err?
  {
    hide ReadBlock, CanonicalHeader, WellFormed, Acceptable, ReadBack, Body, ParseFrom, WithMember, AllZero, PaddedSize;
    var tail := Members(entries[1..]).value + Zeros(1024);
    var h, body := CanonicalHeader(entries[0]).value, Body(entries[0]);
    assert Members(entries).value + Zeros(1024) == h + body + tail;
    BlockReads(entries[0], tail, limits, st);
    ParseUnfold(h + body + tail, limits, st);
  }

  lemma ParseUnfold(rest: Bytes, limits: Limits, st: ParseState)
    requires 512 <= |rest| && !AllZero(rest[..512])
    ensures ParseFrom(rest, limits, st) == (
              var r := ReadBlock(rest, limits, st);
              if r.Ok? then ParseFrom(rest[r.value.length..], limits, r.value.state) else Err(r.error))
  {
  }

  /** Whatever parsing a written archive returns is the entries as their headers read back. */
  lemma {:induction false} ParsedIsReadBack(entries: seq<TarEntry>, limits: Limits, st: ParseState)
    requires AllWellFormed(entries) && Members(entries).Ok? && st.pendingPath == None
    requires forall i :: 0 <= i < |entries| ==> |entries[i].data| <= limits.maxEntryBytes
    ensures var r := ParseFrom(Members(entries).value + Zeros(1024), limits, st);
            r.Ok? ==> r.value == st.entries + ReadBackAll(entries)
  {
    hide WellFormed, Acceptable, ReadBack, ParseFrom;
    if entries == [] {
      TerminatorReads(limits, st);
    } else {
      ParseStep(entries, limits, st);
      if Acceptable(ReadBack(entries[0]), limits, st) {
        var st' := WithMember(ReadBack(entries[0]), st);
        ParsedIsReadBack(entries[1..], limits, st');
        AppendAll(st, ReadBack(entries[0]), ReadBackAll(entries[1..]));
      }
    }
  }

  /** Without marks, parsing succeeds and returns the entries. */
  lemma {:induction false} ParsedIsWritten(entries: seq<TarEntry>, limits: Limits, st: ParseState)
    requires AllWellFormed(entries) && Members(entries).Ok? && NoMarks(entries) && st.pendingPath == None
    requires DistinctPaths(entries)
    requires forall i :: 0 <= i < |entries| ==> entries[i].path !in Paths(st.entries)
    requires forall i :: 0 <= i < |entries| ==> |entries[i].data| <= limits.maxEntryBytes
    requires st.fileCount + FileCount(entries) <= limits.maxFileCount
    requires st.totalFileBytes + FileBytes(entries) <= limits.maxUnpackedBytes
    ensures ParseFrom(Members(entries).value + Zeros(1024), limits, st) == Ok(st.entries + entries)
  {
    hide SafePath, ValidUtf8, ParseFrom, MarkAfterSplit, Paths, Members, UstarSplit, ReadBackPath;
    if entries == [] {
      MembersEmpty(entries);
      TerminatorReads(limits, st);
      assert st.entries + entries == st.entries;
    } else {
      var e := entries[0];
      MembersSplits(entries);
      ReadBackPathKeeps(e.path);
      assert ReadBack(e) == e;
      ParseStep(entries, limits, st);
      var st' := WithMember(e, st);
      PathsAppend(st.entries, e);
      ParsedIsWritten(entries[1..], limits, st');
      AppendAll(st, e, entries[1..]);
      assert [e] + entries[1..] == entries;
    }
  }

  lemma MembersSplits(entries: seq<TarEntry>)
    requires entries != [] && Members(entries).Ok?
    ensures UstarSplit(entries[0].path).Ok? && CanonicalHeader(entries[0]).Ok? && Members(entries[1..]).Ok?
  {
  }
}
