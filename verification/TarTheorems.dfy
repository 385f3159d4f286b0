/**
 * The promises of the canonical archive: what parsing guarantees, the round trip, and
 * canonicalization as a normal form that depends on nothing but the set of entries.
 */
module TarTheorems {
  import opened Lists
  import opened Bytes
  import opened Utf8
  import opened TarFormat
  import opened TarParser
  import opened TarWriter
  import opened TarEntries
  import opened TarCanonical

  // ---- What every accepted archive guarantees ----

  predicate StateInvariant(st: ParseState, limits: Limits) {
    && AllWellFormed(st.entries)
    && DistinctPaths(st.entries)
    && WithinLimits(st.entries, limits)
    && st.fileCount == FileCount(st.entries)
    && st.totalFileBytes == FileBytes(st.entries)
    && (st.pendingPath.Some? ==> ValidUtf8(st.pendingPath.value))
  }

  lemma {:induction false} PaxValuesAreText(data: Bytes, attributes: Attributes)
    requires forall k :: k in attributes ==> ValidUtf8(attributes[k])
    ensures var r := ParsePax(data, attributes);
            r.Ok? ==> forall k :: k in r.value ==> ValidUtf8(r.value[k])
    decreases |data|
  {
    hide ValidUtf8, ReadPaxRecord;
    if data != [] && ReadPaxRecord(data).Ok? {
      var record := ReadPaxRecord(data).value;
      PaxRecordIsText(data);
      PaxValuesAreText(data[record.length..], attributes[record.key := record.value]);
    }
  }

  lemma PaxRecordIsText(data: Bytes)
    requires ReadPaxRecord(data).Ok?
    ensures ValidUtf8(ReadPaxRecord(data).value.value)
  {
    hide ValidUtf8, Ascii, DecimalValue, IsDecimalLength, IndexOf;
    DecodeIsText();
  }

  lemma DecodeIsText()
    ensures forall s :: Decode(s).Some? ==> ValidUtf8(Decode(s).value)
  {
    forall s | Decode(s).Some? ensures ValidUtf8(Decode(s).value) {
      DecodeValid(s);
    }
  }

  lemma GnuPathIsText(data: Bytes)
    requires ParseGnuLongPath(data).Ok?
    ensures ValidUtf8(ParseGnuLongPath(data).value)
  {
    hide ValidUtf8;
    var text := Decode(UpToNul(data)).value;
    DecodeValid(UpToNul(data));
    if text != [] && text[|text| - 1] == 0x0A {
      assert text == text[..|text| - 1] + [0x0A] + [];
      SplitAroundAscii(text[..|text| - 1], 0x0A, []);
    }
  }

  lemma HeaderPathIsText(header: Bytes, pending: Option<Bytes>)
    requires |header| == 512 && ReadFields(header).Ok?
    requires pending.Some? ==> ValidUtf8(pending.value)
    ensures ValidUtf8(EntryPath(ReadFields(header).value, pending))
  {
    hide ValidUtf8, ParseOctal;
    var fields := ReadFields(header).value;
    DecodeValid(UpToNul(header[0..100]));
    DecodeValid(UpToNul(header[345..500]));
    ValidConcat(fields.prefix, [SLASH] + fields.path);
    assert ValidUtf8([SLASH] + fields.path) by {
      SlashThenText(fields.path);
    }
    assert fields.prefix + [SLASH] + fields.path == fields.prefix + ([SLASH] + fields.path);
  }

  lemma SlashThenText(text: Bytes)
    requires ValidUtf8(text)
    ensures ValidUtf8([SLASH] + text)
  {
    assert ([SLASH] + text)[1..] == text;
  }

  /** Adding an entry that passed the checks keeps the invariant. */
  lemma AddKeepsInvariant(e: TarEntry, limits: Limits, st: ParseState)
    requires StateInvariant(st, limits) && WellFormed(e) && |e.data| <= limits.maxEntryBytes
    requires Acceptable(e, limits, st)
    ensures StateInvariant(WithMember(e, st), limits)
    ensures MemberBytes(st.entries + [e]) == MemberBytes(st.entries) + 512 + PaddedSize(DataSize(e))
  {
    hide WellFormed, SafePath, ValidUtf8;
    TotalsConcat(st.entries, [e]);
    forall i | 0 <= i < |st.entries| ensures st.entries[i].path != e.path {
      assert st.entries[i] in st.entries;
    }
  }

  /** An accepted member is well formed, new, and within the limits. */
  lemma AcceptedMember(header: Bytes, fields: HeaderFields, data: Bytes, limits: Limits, st: ParseState)
    requires |header| == 512 && ValidUtf8(EntryPath(fields, st.pendingPath)) && |data| == fields.size
    requires AcceptMember(header, fields, data, limits, st).Ok?
    ensures var st' := AcceptMember(header, fields, data, limits, st).value;
            && st'.entries != []
            && var e := st'.entries[|st'.entries| - 1];
            WellFormed(e) && e.data == data && Acceptable(e, limits, st) && st' == WithMember(e, st)
            && DataSize(e) == fields.size
  {
    hide SafePath, ValidUtf8, ParseOctal, Paths;
  }

  lemma {:induction false} BlockKeepsInvariant(rest: Bytes, limits: Limits, st: ParseState)
    requires 512 <= |rest| && StateInvariant(st, limits) && ReadBlock(rest, limits, st).Ok?
    ensures var block := ReadBlock(rest, limits, st).value;
            && StateInvariant(block.state, limits)
            && MemberBytes(block.state.entries) <= MemberBytes(st.entries) + block.length
  {
    hide AcceptMember, ReadFields, CheckChecksum, StateInvariant, ParsePax, ParseGnuLongPath, ValidUtf8;
    var header := rest[..512];
    var fields := ReadHeader(header).value;
    var data := rest[512..512 + fields.size];
    if fields.typeByte == TYPE_PAX {
      PaxValuesAreText(data, map[]);
      var attributes := ParsePax(data, map[]).value;
      if PAX_PATH_KEY in attributes {
        PendingKeepsInvariant(limits, st, attributes[PAX_PATH_KEY]);
      }
    } else if fields.typeByte == TYPE_GLOBAL_PAX {
    } else if fields.typeByte == TYPE_GNU_LONG_PATH {
      GnuPathIsText(data);
      PendingKeepsInvariant(limits, st, ParseGnuLongPath(data).value);
    } else {
      PendingIsText(limits, st);
      HeaderPathIsText(header, st.pendingPath);
      AcceptedMember(header, fields, data, limits, st);
      var st' := AcceptMember(header, fields, data, limits, st).value;
      AddKeepsInvariant(st'.entries[|st'.entries| - 1], limits, st);
    }
  }

  lemma PendingIsText(limits: Limits, st: ParseState)
    requires StateInvariant(st, limits)
    ensures st.pendingPath.Some? ==> ValidUtf8(st.pendingPath.value)
  {
  }

  lemma PendingKeepsInvariant(limits: Limits, st: ParseState, path: Bytes)
    requires StateInvariant(st, limits) && ValidUtf8(path)
    ensures StateInvariant(st.(pendingPath := Some(path)), limits)
  {
    hide ValidUtf8, AllWellFormed, DistinctPaths, WithinLimits;
  }

  lemma {:induction false} ParseGuarantees(rest: Bytes, limits: Limits, st: ParseState)
    requires StateInvariant(st, limits) && ParseFrom(rest, limits, st).Ok?
    ensures var r := ParseFrom(rest, limits, st).value;
            && AllWellFormed(r) && DistinctPaths(r) && WithinLimits(r, limits)
            && MemberBytes(r) + 1024 <= MemberBytes(st.entries) + |rest|
    decreases |rest|
  {
    hide ReadBlock, AllWellFormed, DistinctPaths, WithinLimits;
    if !AllZero(rest[..512]) {
      var block := ReadBlock(rest, limits, st).value;
      BlockKeepsInvariant(rest, limits, st);
      ParseGuarantees(rest[block.length..], limits, block.state);
    }
  }

  /**
   * Every entry of an accepted archive is safe, paths are pairwise distinct, the limits
   * hold, and the archive is at least as long as one block per header, the padded payloads
   * and the terminator.
   */
  lemma AcceptedArchive(tar: Bytes, limits: Limits)
    requires ParseArchive(tar, limits).Ok?
    ensures var entries := ParseArchive(tar, limits).value;
            && AllWellFormed(entries) && DistinctPaths(entries) && WithinLimits(entries, limits)
            && MemberBytes(entries) + 1024 <= |tar| <= limits.maxUnpackedBytes
  {
    ParseGuarantees(tar, limits, INITIAL);
  }

  // ---- Round trip ----

  lemma {:induction false} MembersLength(entries: seq<TarEntry>)
    requires Members(entries).Ok?
    ensures |Members(entries).value| == MemberBytes(entries)
  {
    hide CanonicalHeader, Body;
    if entries != [] {
      BodySize(entries[0]);
      HeaderLength(entries[0]);
      MembersLength(entries[1..]);
    }
  }

  lemma HeaderLength(e: TarEntry)
    ensures CanonicalHeader(e).Ok? ==> |CanonicalHeader(e).value| == 512
  {
  }

  lemma {:induction false} ReadBackKeepsAll(entries: seq<TarEntry>)
    requires AllWellFormed(entries) && Members(entries).Ok?
    ensures PathBytes(ReadBackAll(entries)) <= PathBytes(entries)
    ensures PathBytes(ReadBackAll(entries)) == PathBytes(entries) <==> NoMarks(entries)
  {
    hide SafePath, ValidUtf8, MarkAfterSplit, UstarSplit, CanonicalHeader, ReadBackPath;
    if entries != [] {
      MembersSplits(entries);
      ReadBackPathKeeps(entries[0].path);
      ReadBackKeepsAll(entries[1..]);
      var back := [ReadBack(entries[0])] + ReadBackAll(entries[1..]);
      assert back[1..] == ReadBackAll(entries[1..]);
      assert NoMarks(entries) <==> !MarkAfterSplit(entries[0].path) && NoMarks(entries[1..]);
    }
  }

  /**
   * The round trip: the archive written for distinct, well-formed entries within the limits
   * parses to exactly those entries in byte order of path, with path, mode, type and data
   * unchanged, if and only if no path loses a byte-order mark at its split.
   */
  lemma RoundTrip(entries: seq<TarEntry>, limits: Limits)
    requires AllWellFormed(entries) && DistinctPaths(entries) && WithinLimits(entries, limits) && ValidLimits(limits)
    requires CreateArchive(entries).Ok? && |CreateArchive(entries).value| <= limits.maxUnpackedBytes
    ensures ParseArchive(CreateArchive(entries).value, limits) == Ok(SortByPath(entries)) <==> NoMarks(entries)
    ensures multiset(SortByPath(entries)) == multiset(entries) && SortedByPath(SortByPath(entries))
  {
    var sorted := SortByPath(entries);
    SortKeeps(entries, limits);
    SortContents(entries);
    SortSorts(entries);
    SortKeepsMarks(entries);
    hide ParseFrom, Members, SortByPath, AllWellFormed, DistinctPaths, NoMarks, ReadBackAll;
    if NoMarks(sorted) {
      ParsedFresh(sorted, limits);
    } else {
      ParsedIsReadBack(sorted, limits, INITIAL);
      ReadBackKeepsAll(sorted);
      assert INITIAL.entries + ReadBackAll(sorted) == ReadBackAll(sorted);
    }
  }

  lemma ParsedFresh(sorted: seq<TarEntry>, limits: Limits)
    requires AllWellFormed(sorted) && DistinctPaths(sorted) && WithinLimits(sorted, limits)
    requires Members(sorted).Ok? && NoMarks(sorted)
    ensures ParseFrom(Members(sorted).value + Zeros(1024), limits, INITIAL) == Ok(sorted)
  {
    hide ParseFrom, Members;
    ParsedIsWritten(sorted, limits, INITIAL);
    assert INITIAL.entries + sorted == sorted;
  }

  lemma SortKeepsMarks(entries: seq<TarEntry>)
    ensures NoMarks(SortByPath(entries)) <==> NoMarks(entries)
  {
    hide MarkAfterSplit;
    var sorted := SortByPath(entries);
    SortContents(entries);
    if NoMarks(sorted) {
      forall i | 0 <= i < |entries| ensures !MarkAfterSplit(entries[i].path) {
        assert entries[i] in multiset(sorted);
      }
    }
    if NoMarks(entries) {
      forall i | 0 <= i < |sorted| ensures !MarkAfterSplit(sorted[i].path) {
        assert sorted[i] in multiset(entries);
      }
    }
  }

  // ---- Path extensions ----

  /** `length key=value`, newline terminated, where length counts the whole record. */
  function PaxText(digits: Bytes, key: Bytes, value: Bytes): Bytes {
    digits + [0x20] + (key + [0x3D] + value + [0x0A])
  }

  predicate PaxWellFormed(digits: Bytes, key: Bytes, value: Bytes) {
    && IsDecimalLength(digits) && DecimalValue(digits) == |PaxText(digits, key, value)| <= MAX_SAFE_INTEGER
    && key != [] && 0x3D !in key && (forall b :: b in key ==> b < 128)
    && ValidUtf8(value) && !(BYTE_ORDER_MARK <= value)
  }

  /** A well-formed record is read back as its key and value, and takes exactly its own bytes. */
  lemma PaxRecordReads(digits: Bytes, key: Bytes, value: Bytes, tail: Bytes)
    requires PaxWellFormed(digits, key, value)
    ensures ReadPaxRecord(PaxText(digits, key, value) + tail)
         == Ok(PaxRecord(key, value, |PaxText(digits, key, value)|))
  {
    hide DecimalValue, ValidUtf8;
    var record := key + [0x3D] + value + [0x0A];
    var text := PaxText(digits, key, value);
    var data := text + tail;
    assert data == digits + [0x20] + (record + tail);
    SliceMiddle(digits, [0x20], record + tail);
    IndexOfAt(data, 0x20, |digits|);
    AsciiKeeps(digits);
    assert data[|digits| + 1..|text|] == record;
    assert record == key + [0x3D] + (value + [0x0A]);
    SliceMiddle(key, [0x3D], value + [0x0A]);
    IndexOfAt(record, 0x3D, |key|);
    assert record[|key| + 1..|record| - 1] == value;
    DecodeValid(value);
    AsciiKeeps(key);
  }

  /** A path record is what sets the pending path, whatever records stand before it. */
  lemma {:induction false} PaxPathRead(before: seq<(Bytes, Bytes, Bytes)>, digits: Bytes, path: Bytes, attributes: Attributes)
    requires forall i :: 0 <= i < |before| ==> PaxWellFormed(before[i].0, before[i].1, before[i].2)
    requires PaxWellFormed(digits, PAX_PATH_KEY, path)
    ensures var r := ParsePax(PaxTexts(before) + PaxText(digits, PAX_PATH_KEY, path), attributes);
            r.Ok? && PAX_PATH_KEY in r.value && r.value[PAX_PATH_KEY] == path
    decreases |before|
  {
    hide PaxWellFormed, ReadPaxRecord, PaxText;
    var last := PaxText(digits, PAX_PATH_KEY, path);
    if before == [] {
      PaxRecordReads(digits, PAX_PATH_KEY, path, []);
      PaxTextNonEmpty(digits, PAX_PATH_KEY, path);
      assert PaxTexts(before) + last == last + [] && last[|last|..] == [];
    } else {
      var (d, k, v) := before[0];
      var text, rest := PaxText(d, k, v), PaxTexts(before[1..]) + last;
      PaxRecordReads(d, k, v, rest);
      PaxTextNonEmpty(d, k, v);
      assert PaxTexts(before) + last == text + rest && (text + rest)[|text|..] == rest;
      PaxPathRead(before[1..], digits, path, attributes[k := v]);
    }
  }

  lemma PaxTextNonEmpty(digits: Bytes, key: Bytes, value: Bytes)
    ensures PaxText(digits, key, value) != []
  {
  }

  function PaxTexts(records: seq<(Bytes, Bytes, Bytes)>): Bytes {
    if records == [] then []
    else PaxText(records[0].0, records[0].1, records[0].2) + PaxTexts(records[1..])
  }

  /** A GNU long path is its bytes up to a NUL, less one final newline. */
  lemma GnuLongPathReads(path: Bytes, newline: bool, padding: nat)
    requires ValidUtf8(path) && !(BYTE_ORDER_MARK <= path) && 0 !in path
    requires path != [] && path[|path| - 1] != 0x0A
    ensures ParseGnuLongPath(path + (if newline then [0x0A] else []) + Zeros(padding)) == Ok(path)
  {
    hide ValidUtf8;
    var text := path + (if newline then [0x0A] else []);
    var data := text + Zeros(padding);
    assert data[..|text|] == text;
    IndexOfAt(data, 0, |text|);
    if newline {
      NewlineIsText();
      ValidConcat(path, [0x0A]);
      assert text[..|text| - 1] == path;
    } else {
      assert text == path;
    }
    DecodeValid(text);
  }

  lemma NewlineIsText()
    ensures ValidUtf8([0x0A])
  {
    assert [0x0A][1..] == [];
  }

  /** The payload of an extension block that sets the path of the next member, in either format. */
  predicate SetsPath(typeByte: Byte, data: Bytes, path: Bytes) {
    || (typeByte == TYPE_PAX && ParsePax(data, map[]).Ok? && PAX_PATH_KEY in ParsePax(data, map[]).value
        && ParsePax(data, map[]).value[PAX_PATH_KEY] == path)
    || (typeByte == TYPE_GNU_LONG_PATH && ParseGnuLongPath(data) == Ok(path))
  }

  /** A header and the fields it is read as. */
  predicate HeaderOf(header: Bytes, fields: HeaderFields) {
    |header| == 512 && !AllZero(header) && ReadHeader(header) == Ok(fields)
  }

  lemma SamePathSameMember(
    named: Bytes, other: Bytes, f: HeaderFields, g: HeaderFields, data: Bytes, limits: Limits, st: ParseState)
    requires |named| == |other| == 512 && ParseOctal(named[100..108]) == ParseOctal(other[100..108])
    requires f.size == g.size && f.typeByte == g.typeByte && !IsExtension(f.typeByte) && st.pendingPath == None
    ensures TakeBlock(other, g, data, limits, st.(pendingPath := Some(EntryPath(f, None))))
         == TakeBlock(named, f, data, limits, st)
  {
    hide SafePath, ParseOctal, Paths, EntryPath;
    assert EntryPath(g, Some(EntryPath(f, None))) == EntryPath(f, None) by { PendingWins(g, EntryPath(f, None)); }
  }

  lemma PendingWins(fields: HeaderFields, path: Bytes)
    ensures EntryPath(fields, Some(path)) == path
  {
  }

  lemma FrontBlock(header: Bytes, payload: Bytes, tail: Bytes, size: nat)
    requires |header| == 512 && |payload| == PaddedSize(size)
    ensures var rest := header + payload + tail;
            && 512 + PaddedSize(size) <= |rest| && rest[..512] == header && rest[512..512 + size] == payload[..size]
            && rest[512 + PaddedSize(size)..] == tail
  {
    hide PaddedSize;
    assert size <= PaddedSize(size) by { PaddingGrows(size); }
    SliceMiddle(header, payload, tail);
    assert (header + payload + tail)[512..512 + size] == payload[..size];
  }

  lemma PaddingGrows(size: nat)
    ensures size <= PaddedSize(size)
  {
  }

  /** An extension block leaves the rest of the archive to be parsed with its path pending. */
  lemma ExtensionSetsPath(
    header: Bytes, fields: HeaderFields, payload: Bytes, path: Bytes, tail: Bytes, limits: Limits, st: ParseState)
    requires HeaderOf(header, fields) && |payload| == PaddedSize(fields.size) && fields.size <= limits.maxEntryBytes
    requires fields.size <= |payload| && SetsPath(fields.typeByte, payload[..fields.size], path)
    ensures ParseFrom(header + payload + tail, limits, st) == ParseFrom(tail, limits, st.(pendingPath := Some(path)))
  {
    hide ReadHeader, ParsePax, ParseGnuLongPath, AllZero, ParseFrom, PaddedSize, AcceptMember;
    FrontBlock(header, payload, tail, fields.size);
    ParseUnfold(header + payload + tail, limits, st);
  }

  lemma SameBlocks(
    named: Bytes, other: Bytes, f: HeaderFields, g: HeaderFields, body: Bytes, tail: Bytes, limits: Limits, st: ParseState)
    requires HeaderOf(named, f) && HeaderOf(other, g) && ParseOctal(named[100..108]) == ParseOctal(other[100..108])
    requires f.size == g.size && f.typeByte == g.typeByte && !IsExtension(f.typeByte)
    requires |body| == PaddedSize(f.size) && st.pendingPath == None
    ensures ParseFrom(other + body + tail, limits, st.(pendingPath := Some(EntryPath(f, None))))
         == ParseFrom(named + body + tail, limits, st)
  {
    hide ReadHeader, TakeBlock, AllZero, ParseFrom, PaddedSize, ParseOctal, EntryPath;
    var pending := st.(pendingPath := Some(EntryPath(f, None)));
    FrontBlock(named, body, tail, f.size);
    FrontBlock(other, body, tail, f.size);
    assert f.size <= |body| by { PaddingGrows(f.size); }
    SamePathSameMember(named, other, f, g, body[..f.size], limits, st);
    ParseUnfold(named + body + tail, limits, st);
    ParseUnfold(other + body + tail, limits, pending);
  }

  /**
   * A member behind a PAX or GNU path block parses exactly like the member whose own header holds
   * that path: the same entries, or the same error, whatever its header says and whatever follows.
   */
  lemma PathBlockActsAsHeader(
    extension: Bytes, x: HeaderFields, payload: Bytes, named: Bytes, other: Bytes, f: HeaderFields, g: HeaderFields,
    body: Bytes, tail: Bytes, limits: Limits, st: ParseState)
    requires HeaderOf(extension, x) && |payload| == PaddedSize(x.size) && x.size <= |payload| && x.size <= limits.maxEntryBytes
    requires SetsPath(x.typeByte, payload[..x.size], EntryPath(f, None))
    requires HeaderOf(named, f) && HeaderOf(other, g) && ParseOctal(named[100..108]) == ParseOctal(other[100..108])
    requires f.size == g.size && f.typeByte == g.typeByte && !IsExtension(f.typeByte)
    requires |body| == PaddedSize(f.size) && st.pendingPath == None
    ensures ParseFrom(extension + payload + (other + body + tail), limits, st) == ParseFrom(named + body + tail, limits, st)
  {
    hide HeaderOf, SetsPath, ParseFrom, PaddedSize, ParseOctal, EntryPath;
    ExtensionSetsPath(extension, x, payload, EntryPath(f, None), other + body + tail, limits, st);
    SameBlocks(named, other, f, g, body, tail, limits, st);
  }

  // ---- Canonical bytes determine the entries ----

  /** Equal headers store equal entries, up to the payload. */
  lemma EqualHeaders(a: TarEntry, b: TarEntry)
    requires WellFormed(a) && WellFormed(b) && CanonicalHeader(a).Ok? && CanonicalHeader(a) == CanonicalHeader(b)
    ensures a.path == b.path && a.mode == b.mode && a.kind == b.kind && DataSize(a) == DataSize(b)
  {
    hide ReadHeader, ParseOctal, SafePath, ValidUtf8, CanonicalHeader, UstarSplit, AllZero;
    HeaderReads(a);
    HeaderReads(b);
    assert UstarSplit(a.path).Ok? && UstarSplit(b.path).Ok? by {
      HeaderSplits(a);
      HeaderSplits(b);
    }
    SplitJoins(a.path);
    SplitJoins(b.path);
  }

  lemma HeaderSplits(e: TarEntry)
    requires CanonicalHeader(e).Ok?
    ensures UstarSplit(e.path).Ok?
  {
  }

  lemma EqualBlocks(a: TarEntry, b: TarEntry, restA: Bytes, restB: Bytes)
    requires WellFormed(a) && WellFormed(b) && CanonicalHeader(a).Ok? && CanonicalHeader(b).Ok?
    requires CanonicalHeader(a).value + Body(a) + restA == CanonicalHeader(b).value + Body(b) + restB
    ensures a == b && restA == restB
  {
    hide SafePath, ValidUtf8, CanonicalHeader, Body;
    HeaderLength(a);
    HeaderLength(b);
    BlockCut(CanonicalHeader(a).value, a, restA);
    BlockCut(CanonicalHeader(b).value, b, restB);
    EqualHeaders(a, b);
  }

  lemma {:induction false} MembersInjective(a: seq<TarEntry>, b: seq<TarEntry>)
    requires AllWellFormed(a) && AllWellFormed(b) && Members(a).Ok? && Members(a) == Members(b)
    ensures a == b
  {
    hide WellFormed, CanonicalHeader, Body;
    MembersLength(a);
    MembersLength(b);
    if a != [] && b != [] {
      MembersSplits(a);
      MembersSplits(b);
      EqualBlocks(a[0], b[0], Members(a[1..]).value, Members(b[1..]).value);
      MembersInjective(a[1..], b[1..]);
      assert a == [a[0]] + a[1..] && b == [b[0]] + b[1..];
    }
  }

  /** Two lists of distinct entries are written to the same bytes exactly when they hold the same entries. */
  lemma SameBytesIffSameEntries(a: seq<TarEntry>, b: seq<TarEntry>)
    requires AllWellFormed(a) && DistinctPaths(a) && AllWellFormed(b) && DistinctPaths(b)
    requires CreateArchive(a).Ok?
    ensures CreateArchive(a) == CreateArchive(b) <==> multiset(a) == multiset(b)
  {
    if multiset(a) == multiset(b) {
      SortIgnoresOrder(a, b);
    }
    if CreateArchive(a) == CreateArchive(b) {
      hide Members;
      SortContents(a);
      SortContents(b);
      SortWellFormed(a);
      SortWellFormed(b);
      var ma, mb := Members(SortByPath(a)).value, Members(SortByPath(b)).value;
      assert |ma| == |mb| && ma == (ma + Zeros(1024))[..|ma|] && mb == (mb + Zeros(1024))[..|mb|];
      MembersInjective(SortByPath(a), SortByPath(b));
    }
  }

  lemma SortWellFormed(entries: seq<TarEntry>)
    requires AllWellFormed(entries)
    ensures AllWellFormed(SortByPath(entries))
  {
    hide WellFormed;
    var sorted := SortByPath(entries);
    SortContents(entries);
    forall i | 0 <= i < |sorted| ensures WellFormed(sorted[i]) {
      assert sorted[i] in multiset(entries);
    }
  }

  // ---- Normal form ----

  /** canonicalizePackageTarball on uncompressed bytes. */
  function Canonicalize(tar: Bytes, limits: Limits): Result<Bytes, TarError> {
    var entries :- ParseArchive(tar, limits);
    CreateArchive(entries)
  }

  /** The canonical form is never longer than the archive it came from. */
  lemma CanonicalizeNeverGrows(tar: Bytes, limits: Limits)
    requires Canonicalize(tar, limits).Ok?
    ensures |Canonicalize(tar, limits).value| <= |tar|
  {
    hide ParseArchive, Members;
    var entries := ParseArchive(tar, limits).value;
    AcceptedArchive(tar, limits);
    SortContents(entries);
    MembersLength(SortByPath(entries));
  }

  /**
   * Canonicalizing again changes nothing and trips no limit, if and only if no path of the
   * archive loses a byte-order mark at its split.
   */
  lemma CanonicalizeIdempotent(tar: Bytes, limits: Limits)
    requires Canonicalize(tar, limits).Ok?
    ensures var c, entries := Canonicalize(tar, limits).value, ParseArchive(tar, limits).value;
            && (Canonicalize(c, limits) == Ok(c) <==> NoMarks(entries))
            && (ParseArchive(c, limits) == Ok(SortByPath(entries)) <==> NoMarks(entries))
  {
    hide ParseArchive, CreateArchive, SortByPath;
    var c, entries := Canonicalize(tar, limits).value, ParseArchive(tar, limits).value;
    AcceptedArchive(tar, limits);
    CanonicalizeNeverGrows(tar, limits);
    AcceptedLimits(tar, limits);
    RoundTrip(entries, limits);
    if NoMarks(entries) {
      SortKeeps(entries, limits);
      SameBytesIffSameEntries(entries, SortByPath(entries));
    } else if Canonicalize(c, limits) == Ok(c) {
      MarksShorten(entries, limits);
      var again := ParseArchive(c, limits).value;
      AcceptedArchive(c, limits);
      SameBytesIffSameEntries(entries, again);
      SortIgnoresOrder(entries, again);
      SortContents(entries);
      SortContents(again);
      assert false;
    }
  }

  lemma AcceptedLimits(tar: Bytes, limits: Limits)
    requires ParseArchive(tar, limits).Ok?
    ensures ValidLimits(limits)
  {
  }

  /** With a mark at a split, whatever is read back has fewer path bytes than was written. */
  lemma MarksShorten(entries: seq<TarEntry>, limits: Limits)
    requires AllWellFormed(entries) && DistinctPaths(entries) && WithinLimits(entries, limits)
    requires CreateArchive(entries).Ok? && !NoMarks(entries)
    ensures var r := ParseArchive(CreateArchive(entries).value, limits);
            r.Ok? ==> PathBytes(r.value) < PathBytes(entries)
  {
    hide ParseFrom, Members, AllWellFormed, DistinctPaths, NoMarks, ReadBackAll;
    var sorted := SortByPath(entries);
    SortKeeps(entries, limits);
    SortContents(entries);
    SortKeepsMarks(entries);
    ParsedIsReadBack(sorted, limits, INITIAL);
    ReadBackKeepsAll(sorted);
    assert INITIAL.entries + ReadBackAll(sorted) == ReadBackAll(sorted);
  }

  /**
   * Two accepted archives have the same canonical bytes exactly when they hold the same
   * entries, whatever the order of their members and however their paths were stored.
   */
  lemma CanonicalizeIsNormalForm(tar: Bytes, other: Bytes, limits: Limits)
    requires Canonicalize(tar, limits).Ok? && ParseArchive(other, limits).Ok?
    ensures Canonicalize(tar, limits) == Canonicalize(other, limits)
       <==> multiset(ParseArchive(tar, limits).value) == multiset(ParseArchive(other, limits).value)
  {
    hide ParseArchive, CreateArchive;
    AcceptedArchive(tar, limits);
    AcceptedArchive(other, limits);
    SameBytesIffSameEntries(ParseArchive(tar, limits).value, ParseArchive(other, limits).value);
  }

  // ---- The failing family is not empty ----

  /** package/aa...a/U+FEFF x: 108 bytes, split in front of the mark. */
  const MARKED_PATH: Bytes := PACKAGE + [SLASH] + Fill(0x61, 95) + [SLASH] + MARKED_NAME
  const MARKED_NAME: Bytes := BYTE_ORDER_MARK + [0x78]

  lemma MarkedPathSegments()
    ensures Split(MARKED_PATH, SLASH) == [PACKAGE, Fill(0x61, 95), MARKED_NAME]
  {
    var rest := Fill(0x61, 95) + [SLASH] + MARKED_NAME;
    assert MARKED_PATH == PACKAGE + [SLASH] + rest;
    SplitStep(PACKAGE, SLASH, rest);
    SplitStep(Fill(0x61, 95), SLASH, MARKED_NAME);
    SplitNone(MARKED_NAME, SLASH);
  }

  lemma MarkedPathSplits()
    ensures LastFit(MARKED_PATH, |MARKED_PATH|) == 103 && MarkAfterSplit(MARKED_PATH)
  {
    assert |MARKED_PATH| == 108;
    assert MARKED_PATH[103] == SLASH && MARKED_PATH[104..] == MARKED_NAME;
    var i := LastFit(MARKED_PATH, 108);
    assert Fits(MARKED_PATH, 103);
    assert forall j :: 104 <= j < 108 ==> MARKED_PATH[j] == MARKED_NAME[j - 104];
    assert i <= 103;
  }

  lemma MarkedPathIsText()
    ensures ValidUtf8(MARKED_PATH)
  {
    assert ValidUtf8(MARKED_NAME) by {
      assert MARKED_NAME[3..] == [0x78] && [0x78][1..] == [];
    }
    AsciiIsText(PACKAGE + [SLASH] + Fill(0x61, 95) + [SLASH]);
    ValidConcat(PACKAGE + [SLASH] + Fill(0x61, 95) + [SLASH], MARKED_NAME);
  }

  lemma {:induction false} AsciiIsText(s: Bytes)
    requires forall i :: 0 <= i < |s| ==> s[i] < 0x80
    ensures ValidUtf8(s)
  {
    if s != [] {
      AsciiIsText(s[1..]);
    }
  }

  /** One file at that path is written without complaint and does not come back. */
  lemma MarkBreaksRoundTrip()
    ensures var e := TarEntry(MARKED_PATH, 0, File, []);
            var limits := Limits(1048576, 1024, 10);
            && WellFormed(e) && WithinLimits([e], limits) && ValidLimits(limits)
            && CreateArchive([e]).Ok?
            && ParseArchive(CreateArchive([e]).value, limits) != Ok([e])
  {
    var e := TarEntry(MARKED_PATH, 0, File, []);
    var limits := Limits(1048576, 1024, 10);
    MarkedPathIsSafe();
    MarkedPathIsText();
    MarkedPathSplits();
    MarkedArchive(e);
    SingleMarkBreaks(e, limits);
  }

  lemma SingleMarkBreaks(e: TarEntry, limits: Limits)
    requires WellFormed(e) && MarkAfterSplit(e.path) && e.data == [] && ValidLimits(limits)
    requires CreateArchive([e]).Ok? && |CreateArchive([e]).value| <= limits.maxUnpackedBytes
    ensures WithinLimits([e], limits)
    ensures ParseArchive(CreateArchive([e]).value, limits) != Ok([e])
  {
    hide WellFormed, ParseArchive, CreateArchive, MarkAfterSplit;
    assert [e][1..] == [];
    assert FileBytes([]) == 0 && FileCount([]) == 0;
    assert DataSize(e) == 0;
    assert FileCount([e]) <= 1 && FileBytes([e]) == DataSize(e);
    assert SortByPath([e]) == [e];
    assert !NoMarks([e]) by {
      assert MarkAfterSplit([e][0].path);
    }
    RoundTrip([e], limits);
  }

  lemma MarkedPathIsSafe()
    ensures SafePath(MARKED_PATH)
  {
    hide Split;
    MarkedPathSegments();
    assert MARKED_PATH[107] == 0x78;
    assert PACKAGE + [SLASH] <= MARKED_PATH;
    assert MARKED_PATH[|MARKED_PATH| - 1] != SLASH;
  }

  lemma MarkedArchive(e: TarEntry)
    requires e == TarEntry(MARKED_PATH, 0, File, [])
    ensures CreateArchive([e]).Ok? && |CreateArchive([e]).value| == 1536
  {
    MarkedPathSplits();
    assert UstarSplit(MARKED_PATH).Ok? && SizeFits(e);
    assert SortByPath([e]) == [e] && [e][1..] == [];
    assert CanonicalHeader(e).Ok?;
    assert Members([]) == Ok([]);
    MembersLength([e]);
  }
}
