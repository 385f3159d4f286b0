/**
 * The vocabulary of scripts/release-evidence.ts for package archives: entries, limits,
 * errors, and the text and octal fields of a 512-byte header ("ustar Interchange Format",
 * the pax utility, IEEE Std 1003.1).
 */
module TarFormat {
  import opened Lists
  import opened Bytes
  import opened Utf8

  datatype EntryType = File | Directory

  datatype TarEntry = TarEntry(path: Bytes, mode: nat, kind: EntryType, data: Bytes)

  datatype Limits = Limits(maxUnpackedBytes: int, maxEntryBytes: int, maxFileCount: int)

  datatype TarError =
    | InvalidLimits
    | UnpackedTooLarge
    | NotOctal
    | UnsafeInteger
    | NotUtf8
    | ChecksumMismatch
    | EntryTooLarge
    | Truncated
    | PaxMissingSeparator
    | PaxInvalidLength
    | PaxTruncated
    | PaxNotTerminated
    | PaxMissingKey
    | GlobalPaxPath
    | UnsafePath
    | UnsafeMode
    | UnsupportedType
    | DirectoryWithData
    | DuplicateMember
    | TooManyFiles
    | TooMuchData
    | DanglingPathExtension
    | MissingTerminator
    | MissingSecondZeroBlock
    | DataAfterTerminator
    | PathTooLong
    | SizeTooLarge

  predicate ValidLimits(limits: Limits) {
    && 0 < limits.maxUnpackedBytes <= MAX_SAFE_INTEGER
    && 0 < limits.maxEntryBytes <= MAX_SAFE_INTEGER
    && 0 < limits.maxFileCount <= MAX_SAFE_INTEGER
    && limits.maxEntryBytes <= limits.maxUnpackedBytes
  }

  // ---- Text fields ----

  /** A field's text ends at its first NUL or at the end of the field. */
  function UpToNul(field: Bytes): Bytes {
    field[..IndexOf(field, 0)]
  }

  function ReadTarString(field: Bytes): Result<Bytes, TarError> {
    match Decode(UpToNul(field))
    case Some(text) => Ok(text)
    case None => Err(NotUtf8)
  }

  // ---- Numeric fields ----

  function StripEnd(s: Bytes, cut: set<int>): Bytes {
    if s != [] && s[|s| - 1] in cut then StripEnd(s[..|s| - 1], cut) else s
  }

  function StripStart(s: Bytes, cut: set<int>): Bytes {
    if s != [] && s[0] in cut then StripStart(s[1..], cut) else s
  }

  /** `toString("ascii")` clears the high bit of every byte. */
  function Ascii(s: Bytes): (t: Bytes)
    ensures |t| == |s|
  {
    seq(|s|, i requires 0 <= i < |s| => s[i] % 128)
  }

  /** The white space `trim()` removes, as far as seven-bit text can hold it. */
  const WHITE_SPACE: set<int> := {9, 10, 11, 12, 13, 32}
  const FIELD_PADDING: set<int> := {0, 32}

  predicate IsOctalDigit(b: Byte) {
    0x30 <= b <= 0x37
  }

  function OctalValue(digits: Bytes): nat
    requires forall d :: d in digits ==> IsOctalDigit(d)
  {
    if digits == [] then 0
    else
      assert digits[|digits| - 1] in digits && IsOctalDigit(digits[|digits| - 1]);
      8 * OctalValue(digits[..|digits| - 1]) + (digits[|digits| - 1] - 0x30)
  }

  function ParseOctal(field: Bytes): Result<nat, TarError> {
    var raw := StripStart(StripEnd(StripEnd(Ascii(field), FIELD_PADDING), WHITE_SPACE), WHITE_SPACE);
    if raw == [] then Ok(0)
    else if exists d :: d in raw && !IsOctalDigit(d) then Err(NotOctal)
    else if OctalValue(raw) > MAX_SAFE_INTEGER then Err(UnsafeInteger)
    else Ok(OctalValue(raw))
  }

  function OctalDigits(n: nat): (digits: Bytes)
    ensures digits != [] && forall d :: d in digits ==> IsOctalDigit(d)
    ensures OctalValue(digits) == n
  {
    if n < 8 then [0x30 + n] else OctalDigits(n / 8) + [0x30 + n % 8]
  }

  function Pow8(k: nat): (p: nat)
    ensures p > 0
  {
    if k == 0 then 1 else 8 * Pow8(k - 1)
  }

  /** A value needs at most `width` octal digits exactly when it is below 8^width. */
  lemma {:induction false} OctalWidth(n: nat, width: nat)
    requires width > 0
    ensures |OctalDigits(n)| <= width <==> n < Pow8(width)
  {
    if n >= 8 {
      if width == 1 {
        assert |OctalDigits(n)| == |OctalDigits(n / 8)| + 1;
        assert Pow8(1) == 8 * Pow8(0);
      } else {
        OctalWidth(n / 8, width - 1);
      }
    } else {
      assert Pow8(width) == 8 * Pow8(width - 1);
    }
  }

  /** `value.toString(8).padStart(width, "0")`. */
  function PaddedOctal(n: nat, width: nat): (digits: Bytes)
    requires |OctalDigits(n)| <= width
    ensures |digits| == width && forall d :: d in digits ==> IsOctalDigit(d)
  {
    Fill(0x30, width - |OctalDigits(n)|) + OctalDigits(n)
  }

  lemma {:induction false} LeadingZerosCountNothing(zeros: nat, digits: Bytes)
    requires forall d :: d in digits ==> IsOctalDigit(d)
    ensures OctalValue(Fill(0x30, zeros) + digits) == OctalValue(digits)
    decreases zeros + |digits|
  {
    var s := Fill(0x30, zeros) + digits;
    if digits != [] {
      assert s[..|s| - 1] == Fill(0x30, zeros) + digits[..|digits| - 1];
      LeadingZerosCountNothing(zeros, digits[..|digits| - 1]);
    } else if zeros > 0 {
      assert s[..|s| - 1] == Fill(0x30, zeros - 1) + digits;
      LeadingZerosCountNothing(zeros - 1, digits);
    }
  }

  lemma {:induction false} StripEndStops(digits: Bytes, tail: Bytes, cut: set<int>)
    requires digits == [] || digits[|digits| - 1] !in cut
    requires forall b :: b in tail ==> b in cut
    ensures StripEnd(digits + tail, cut) == StripEnd(digits, cut) == digits
  {
    var s := digits + tail;
    if tail == [] {
      assert s == digits;
    } else {
      assert s[|s| - 1] == tail[|tail| - 1];
      assert s[..|s| - 1] == digits + tail[..|tail| - 1];
      StripEndStops(digits, tail[..|tail| - 1], cut);
    }
  }

  lemma AsciiKeeps(s: Bytes)
    requires forall b :: b in s ==> b < 128
    ensures Ascii(s) == s
  {
    forall i | 0 <= i < |s| ensures Ascii(s)[i] == s[i] {
      assert s[i] in s;
    }
  }

  lemma StripKeepsDigits(digits: Bytes, tail: Bytes)
    requires digits != [] && forall d :: d in digits ==> IsOctalDigit(d)
    requires forall b :: b in tail ==> b in FIELD_PADDING
    ensures StripStart(StripEnd(StripEnd(digits + tail, FIELD_PADDING), WHITE_SPACE), WHITE_SPACE) == digits
  {
    assert digits[|digits| - 1] in digits && digits[0] in digits;
    StripEndStops(digits, tail, FIELD_PADDING);
    StripEndStops(digits, [], WHITE_SPACE);
  }

  /** A zero-padded octal number followed by NULs or blanks reads back as the number. */
  lemma OctalFieldRoundTrip(n: nat, width: nat, tail: Bytes)
    requires |OctalDigits(n)| <= width
    requires n <= MAX_SAFE_INTEGER
    requires forall b :: b in tail ==> b in FIELD_PADDING
    ensures ParseOctal(PaddedOctal(n, width) + tail) == Ok(n)
  {
    var digits := PaddedOctal(n, width);
    AsciiKeeps(digits + tail);
    StripKeepsDigits(digits, tail);
    LeadingZerosCountNothing(width - |OctalDigits(n)|, OctalDigits(n));
  }

  // ---- Paths ----

  const SLASH: Byte := 0x2F
  const PACKAGE: Bytes := [0x70, 0x61, 0x63, 0x6B, 0x61, 0x67, 0x65]

  /** assertSafeTarPath: below `package`, no backslash, NUL, empty, `.` or `..` segment. */
  predicate SafePath(path: Bytes) {
    var p := if path != [] && path[|path| - 1] == SLASH then path[..|path| - 1] else path;
    && (p == PACKAGE || PACKAGE + [SLASH] <= p)
    && 0x5C !in p
    && 0 !in p
    && forall s :: s in Split(p, SLASH) ==> s != [] && s != [0x2E] && s != [0x2E, 0x2E]
  }

  /** Safe paths hold no NUL, so a field stores them whole, and start with an ASCII letter. */
  lemma SafePathBytes(path: Bytes)
    requires SafePath(path)
    ensures |path| >= 7 && path[0] == 0x70
    ensures 0 !in path
  {
    var p := if path != [] && path[|path| - 1] == SLASH then path[..|path| - 1] else path;
    assert p[0] == PACKAGE[0];
    assert path == p || path == p + [SLASH];
  }

  predicate SafeMode(mode: nat) {
    mode < 512 && (mode / 2) % 2 == 0
  }

  /** Payloads occupy whole 512-byte blocks. */
  function PaddedSize(size: nat): (n: nat)
    ensures n % 512 == 0 && size <= n < size + 512
  {
    (size + 511) / 512 * 512
  }
}
