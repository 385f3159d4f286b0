/**
 * parseTarEntries of scripts/release-evidence.ts on the uncompressed archive: a functional
 * reading of one block after another, and the loops of the source proved equal to it.
 */
module TarParser {
  import opened Lists
  import opened Bytes
  import opened Utf8
  import opened TarFormat

  const TYPE_FILE: Byte := 0x30
  const TYPE_DIRECTORY: Byte := 0x35
  const TYPE_PAX: Byte := 0x78
  const TYPE_GLOBAL_PAX: Byte := 0x67
  const TYPE_GNU_LONG_PATH: Byte := 0x4C

  predicate AllZero(s: Bytes) {
    forall i :: 0 <= i < |s| ==> s[i] == 0
  }

  // ---- Headers ----

  /** The checksum counts the eight bytes of its own field as blanks. */
  function HeaderSum(header: Bytes): nat
    requires |header| == 512
  {
    Sum(header[..148]) + 8 * 0x20 + Sum(header[156..])
  }

  function CheckChecksum(header: Bytes): Result<(), TarError>
    requires |header| == 512
  {
    var stored :- ParseOctal(header[148..156]);
    if stored == HeaderSum(header) then Ok(()) else Err(ChecksumMismatch)
  }

  method AssertTarChecksum(header: Bytes) returns (r: Result<(), TarError>)
    requires |header| == 512
    ensures r == CheckChecksum(header)
  {
    var stored := ParseOctal(header[148..156]);
    if stored.Err? {
      return Err(stored.error);
    }
    var calculated: int := 0;
    var index := 0;
    while index < 512
      invariant 0 <= index <= 512
      invariant calculated == Sum(header[..if index < 148 then index else 148])
                              + 0x20 * (if index < 148 then 0 else if index < 156 then index - 148 else 8)
                              + Sum(header[156..if index < 156 then 156 else index])
    {
      if 148 <= index < 156 {
        calculated := calculated + 0x20;
      } else {
        var from := if index < 148 then 0 else 156;
        assert header[from..index + 1] == header[from..index] + [header[index]];
        SumConcat(header[from..index], [header[index]]);
        calculated := calculated + header[index];
      }
      index := index + 1;
    }
    assert header[156..512] == header[156..];
    r := if stored.value == calculated then Ok(()) else Err(ChecksumMismatch);
  }

  datatype HeaderFields = HeaderFields(path: Bytes, prefix: Bytes, size: nat, typeByte: Byte)

  function ReadFields(header: Bytes): Result<HeaderFields, TarError>
    requires |header| == 512
  {
    var path :- ReadTarString(header[0..100]);
    var prefix :- ReadTarString(header[345..500]);
    var size :- ParseOctal(header[124..136]);
    Ok(HeaderFields(path, prefix, size, header[156]))
  }

  function ReadHeader(header: Bytes): Result<HeaderFields, TarError>
    requires |header| == 512
  {
    var _ :- CheckChecksum(header);
    ReadFields(header)
  }

  // ---- Path extensions ----

  predicate IsDecimalLength(text: Bytes) {
    && text != []
    && 0x31 <= text[0] <= 0x39
    && forall i :: 0 <= i < |text| ==> 0x30 <= text[i] <= 0x39
  }

  function DecimalValue(digits: Bytes): nat
    requires forall i :: 0 <= i < |digits| ==> 0x30 <= digits[i] <= 0x39
  {
    if digits == [] then 0
    else 10 * DecimalValue(digits[..|digits| - 1]) + (digits[|digits| - 1] - 0x30)
  }

  datatype PaxRecord = PaxRecord(key: Bytes, value: Bytes, length: nat)

  function ReadPaxRecord(data: Bytes): (r: Result<PaxRecord, TarError>)
    ensures r.Ok? ==> 0 < r.value.length <= |data|
  {
    var space := IndexOf(data, 0x20);
    if space == |data| then Err(PaxMissingSeparator)
    else if !IsDecimalLength(Ascii(data[..space])) then Err(PaxInvalidLength)
    else
      var length := DecimalValue(Ascii(data[..space]));
      if length > MAX_SAFE_INTEGER || length > |data| || length <= space + 1 then Err(PaxTruncated)
      else
        var record := data[space + 1..length];
        if record[|record| - 1] != 0x0A then Err(PaxNotTerminated)
        else
          var equals := IndexOf(record, 0x3D);
          if equals == |record| || equals == 0 then Err(PaxMissingKey)
          else
            match Decode(record[equals + 1..|record| - 1])
            case None => Err(NotUtf8)
            case Some(value) => Ok(PaxRecord(Ascii(record[..equals]), value, length))
  }

  type Attributes = map<Bytes, Bytes>

  function ParsePax(data: Bytes, attributes: Attributes): Result<Attributes, TarError>
    decreases |data|
  {
    if data == [] then Ok(attributes)
    else
      var record :- ReadPaxRecord(data);
      ParsePax(data[record.length..], attributes[record.key := record.value])
  }

  method ParsePaxAttributes(data: Bytes) returns (r: Result<Attributes, TarError>)
    ensures r == ParsePax(data, map[])
  {
    var attributes: Attributes := map[];
    var offset := 0;
    while offset < |data|
      invariant 0 <= offset <= |data|
      invariant ParsePax(data, map[]) == ParsePax(data[offset..], attributes)
    {
      var record := ReadPaxRecord(data[offset..]);
      if record.Err? {
        return Err(record.error);
      }
      attributes := attributes[record.value.key := record.value.value];
      assert data[offset..][record.value.length..] == data[offset + record.value.length..];
      offset := offset + record.value.length;
    }
    r := Ok(attributes);
  }

  const PAX_PATH_KEY: Bytes := [0x70, 0x61, 0x74, 0x68]

  function ParseGnuLongPath(data: Bytes): Result<Bytes, TarError> {
    match Decode(UpToNul(data))
    case None => Err(NotUtf8)
    case Some(text) =>
      Ok(if text != [] && text[|text| - 1] == 0x0A then text[..|text| - 1] else text)
  }

  // ---- Members ----

  datatype ParseState = ParseState(
    entries: seq<TarEntry>,
    pendingPath: Option<Bytes>,
    totalFileBytes: nat,
    fileCount: nat)

  const INITIAL := ParseState([], None, 0, 0)

  function Paths(entries: seq<TarEntry>): set<Bytes> {
    set e | e in entries :: e.path
  }

  lemma PathsAppend(entries: seq<TarEntry>, e: TarEntry)
    ensures Paths(entries + [e]) == Paths(entries) + {e.path}
  {
    assert e in entries + [e];
  }

  function EntryPath(fields: HeaderFields, pending: Option<Bytes>): Bytes {
    match pending
    case Some(path) => path
    case None => if fields.prefix == [] then fields.path else fields.prefix + [SLASH] + fields.path
  }

  function KindOf(typeByte: Byte): Option<EntryType> {
    if typeByte == 0 || typeByte == TYPE_FILE then Some(File)
    else if typeByte == TYPE_DIRECTORY then Some(Directory)
    else None
  }

  /** One ordinary member: every check of the source, in its order. */
  function AcceptMember(header: Bytes, fields: HeaderFields, data: Bytes, limits: Limits, st: ParseState)
    : Result<ParseState, TarError>
    requires |header| == 512
  {
    var path := EntryPath(fields, st.pendingPath);
    if !SafePath(path) then Err(UnsafePath)
    else
      var mode :- ParseOctal(header[100..108]);
      if !SafeMode(mode) then Err(UnsafeMode)
      else if KindOf(fields.typeByte) == None then Err(UnsupportedType)
      else
        var kind := KindOf(fields.typeByte).value;
        if kind == Directory && fields.size != 0 then Err(DirectoryWithData)
        else if path in Paths(st.entries) then Err(DuplicateMember)
        else
          var files := if kind == File then st.fileCount + 1 else st.fileCount;
          var bytes := if kind == File then st.totalFileBytes + fields.size else st.totalFileBytes;
          if kind == File && files > limits.maxFileCount then Err(TooManyFiles)
          else if kind == File && bytes > limits.maxUnpackedBytes then Err(TooMuchData)
          else Ok(ParseState(st.entries + [TarEntry(path, mode, kind, data)], None, bytes, files))
  }

  /** What one header with its payload does to the state. */
  function TakeBlock(header: Bytes, fields: HeaderFields, data: Bytes, limits: Limits, st: ParseState)
    : Result<ParseState, TarError>
    requires |header| == 512
  {
    if fields.typeByte == TYPE_PAX then
      var attributes :- ParsePax(data, map[]);
      Ok(if PAX_PATH_KEY in attributes then st.(pendingPath := Some(attributes[PAX_PATH_KEY])) else st)
    else if fields.typeByte == TYPE_GLOBAL_PAX then
      var attributes :- ParsePax(data, map[]);
      if PAX_PATH_KEY in attributes then Err(GlobalPaxPath) else Ok(st)
    else if fields.typeByte == TYPE_GNU_LONG_PATH then
      var path :- ParseGnuLongPath(data);
      Ok(st.(pendingPath := Some(path)))
    else
      AcceptMember(header, fields, data, limits, st)
  }

  datatype Block = Block(state: ParseState, length: nat)

  /** Reads one block of the remaining archive: its header, its payload and their effect. */
  function ReadBlock(rest: Bytes, limits: Limits, st: ParseState): (r: Result<Block, TarError>)
    requires 512 <= |rest|
    ensures r.Ok? ==> 512 <= r.value.length <= |rest|
  {
    var header := rest[..512];
    var fields :- ReadHeader(header);
    if fields.size > limits.maxEntryBytes then Err(EntryTooLarge)
    else if 512 + PaddedSize(fields.size) > |rest| then Err(Truncated)
    else
      var state :- TakeBlock(header, fields, rest[512..512 + fields.size], limits, st);
      Ok(Block(state, 512 + PaddedSize(fields.size)))
  }

  function Terminate(rest: Bytes, st: ParseState): Result<seq<TarEntry>, TarError> {
    if st.pendingPath.Some? then Err(DanglingPathExtension)
    else if |rest| < 1024 || !AllZero(rest[..1024]) then Err(MissingSecondZeroBlock)
    else if !AllZero(rest[1024..]) then Err(DataAfterTerminator)
    else Ok(st.entries)
  }

  function ParseFrom(rest: Bytes, limits: Limits, st: ParseState): Result<seq<TarEntry>, TarError>
    decreases |rest|
  {
    if |rest| < 512 then Err(MissingTerminator)
    else if AllZero(rest[..512]) then Terminate(rest, st)
    else
      var block :- ReadBlock(rest, limits, st);
      ParseFrom(rest[block.length..], limits, block.state)
  }

  /** parseTarEntries once the gzip layer has produced `tar`. */
  function ParseArchive(tar: Bytes, limits: Limits): Result<seq<TarEntry>, TarError> {
    if !ValidLimits(limits) then Err(InvalidLimits)
    else if |tar| > limits.maxUnpackedBytes then Err(UnpackedTooLarge)
    else ParseFrom(tar, limits, INITIAL)
  }

  predicate IsExtension(typeByte: Byte) {
    typeByte == TYPE_PAX || typeByte == TYPE_GLOBAL_PAX || typeByte == TYPE_GNU_LONG_PATH
  }

  method ReadExtension(header: Bytes, fields: HeaderFields, data: Bytes, limits: Limits, st: ParseState)
    returns (r: Result<ParseState, TarError>)
    requires |header| == 512 && IsExtension(fields.typeByte)
    ensures r == TakeBlock(header, fields, data, limits, st)
    ensures r.Ok? ==> r.value.entries == st.entries
  {
    if fields.typeByte == TYPE_GNU_LONG_PATH {
      var path := ParseGnuLongPath(data);
      if path.Err? {
        return Err(path.error);
      }
      return Ok(st.(pendingPath := Some(path.value)));
    }
    var attributes := ParsePaxAttributes(data);
    if attributes.Err? {
      return Err(attributes.error);
    }
    if PAX_PATH_KEY !in attributes.value {
      return Ok(st);
    }
    if fields.typeByte == TYPE_GLOBAL_PAX {
      return Err(GlobalPaxPath);
    }
    r := Ok(st.(pendingPath := Some(attributes.value[PAX_PATH_KEY])));
  }

  method ReadMember(header: Bytes, fields: HeaderFields, data: Bytes, limits: Limits, st: ParseState, seen: set<Bytes>)
    returns (r: Result<ParseState, TarError>, seen': set<Bytes>)
    requires |header| == 512 && seen == Paths(st.entries) && !IsExtension(fields.typeByte)
    ensures r == TakeBlock(header, fields, data, limits, st)
    ensures r.Ok? ==> seen' == Paths(r.value.entries)
  {
    hide SafePath, ParseOctal, Paths;
    seen' := seen;
    var entryPath := EntryPath(fields, st.pendingPath);
    if !SafePath(entryPath) {
      return Err(UnsafePath), seen;
    }
    var mode := ParseOctal(header[100..108]);
    if mode.Err? {
      return Err(mode.error), seen;
    }
    if !SafeMode(mode.value) {
      return Err(UnsafeMode), seen;
    }
    var kind := KindOf(fields.typeByte);
    if kind == None {
      return Err(UnsupportedType), seen;
    }
    if kind.value == Directory && fields.size != 0 {
      return Err(DirectoryWithData), seen;
    }
    if entryPath in seen {
      return Err(DuplicateMember), seen;
    }
    var fileCount, totalFileBytes := st.fileCount, st.totalFileBytes;
    if kind.value == File {
      fileCount := fileCount + 1;
      if fileCount > limits.maxFileCount {
        return Err(TooManyFiles), seen;
      }
      totalFileBytes := totalFileBytes + fields.size;
      if totalFileBytes > limits.maxUnpackedBytes {
        return Err(TooMuchData), seen;
      }
    }
    seen' := seen + {entryPath};
    var entry := TarEntry(entryPath, mode.value, kind.value, data);
    PathsAppend(st.entries, entry);
    r := Ok(ParseState(st.entries + [entry], None, totalFileBytes, fileCount));
  }

  method ParseTarEntries(tar: Bytes, limits: Limits) returns (r: Result<seq<TarEntry>, TarError>)
    ensures r == ParseArchive(tar, limits)
  {
    hide AcceptMember, CheckChecksum, ReadFields, TakeBlock, Terminate, AllZero, PaddedSize;
    if !ValidLimits(limits) {
      return Err(InvalidLimits);
    }
    if |tar| > limits.maxUnpackedBytes {
      return Err(UnpackedTooLarge);
    }
    var st, seen: set<Bytes>, offset := INITIAL, {}, 0;
    while offset + 512 <= |tar|
      invariant 0 <= offset <= |tar|
      invariant seen == Paths(st.entries)
      invariant ParseFrom(tar, limits, INITIAL) == ParseFrom(tar[offset..], limits, st)
    {
      ghost var rest := tar[offset..];
      var header := tar[offset..offset + 512];
      assert header == rest[..512];
      if AllZero(header) {
        return Terminate(tar[offset..], st);
      }
      var checked := AssertTarChecksum(header);
      if checked.Err? {
        return Err(checked.error);
      }
      var read := ReadFields(header);
      if read.Err? {
        return Err(read.error);
      }
      var fields := read.value;
      if fields.size > limits.maxEntryBytes {
        return Err(EntryTooLarge);
      }
      var next := offset + 512 + PaddedSize(fields.size);
      if next > |tar| {
        return Err(Truncated);
      }
      var data := tar[offset + 512..offset + 512 + fields.size];
      assert data == rest[512..512 + fields.size];
      assert rest[512 + PaddedSize(fields.size)..] == tar[next..];
      var taken: Result<ParseState, TarError>;
      if IsExtension(fields.typeByte) {
        taken := ReadExtension(header, fields, data, limits, st);
        if taken.Err? {
          return Err(taken.error);
        }
      } else {
        taken, seen := ReadMember(header, fields, data, limits, st, seen);
        if taken.Err? {
          return Err(taken.error);
        }
      }
      assert ReadBlock(rest, limits, st) == Ok(Block(taken.value, 512 + PaddedSize(fields.size)));
      st, offset := taken.value, next;
    }
    r := Err(MissingTerminator);
  }
}
