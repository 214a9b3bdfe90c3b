/**
 The wrapper's own arithmetic in `apk_manifest.rs`: the bounded search for the
 ZIP end-of-central-directory record (section 4.3.16 of PKWARE APPNOTE.TXT),
 integer attribute normalization, and fact extraction.
 */
module ApkManifest {
  import opened Wrappers
  import opened DecimalText
  import opened Sorting

  type Byte = b: int | 0 <= b < 256

  datatype ManifestError = ZipInvalid | ManifestInvalid

  const ZIP_EOCD_MIN_BYTES: nat := 22
  const ZIP_MAX_COMMENT_BYTES: nat := 0xffff
  const SIGNATURE: seq<Byte> := [0x50, 0x4b, 0x05, 0x06]

  function U16(low: Byte, high: Byte): (n: nat)
    ensures n <= 0xffff
  {
    low + 256 * high
  }

  // ---- The end-of-central-directory record ---------------------------------------------

  /** A record starts at `start`: the signature, and a comment that reaches exactly to the end. */
  predicate RecordAt(bytes: seq<Byte>, start: nat) {
    && start + ZIP_EOCD_MIN_BYTES <= |bytes|
    && bytes[start..start + 4] == SIGNATURE
    && start + ZIP_EOCD_MIN_BYTES + U16(bytes[start + 20], bytes[start + 21]) == |bytes|
  }

  /** What the record at `start` declares: its entry count, unless it spans disks or needs ZIP64. */
  function Declared(bytes: seq<Byte>, start: nat): Result<nat, ManifestError>
    requires start + ZIP_EOCD_MIN_BYTES <= |bytes|
  {
    var onDisk, total := U16(bytes[start + 8], bytes[start + 9]), U16(bytes[start + 10], bytes[start + 11]);
    if onDisk != total || total == 0xffff then Err(ZipInvalid) else Ok(total)
  }

  /**
   A record and its count in terms of the bytes: the signature `PK` 5 6, the
   comment length little-endian at 20, both entry counts little-endian at 8 and 10.
   */
  lemma RecordMeans(bytes: seq<Byte>, start: nat)
    ensures RecordAt(bytes, start) <==>
            && start + 22 <= |bytes|
            && bytes[start] == 80 && bytes[start + 1] == 75 && bytes[start + 2] == 5 && bytes[start + 3] == 6
            && start + 22 + bytes[start + 20] as int + 256 * (bytes[start + 21] as int) == |bytes|
    ensures forall n: nat :: start + 22 <= |bytes| ==>
              (Declared(bytes, start) == Ok(n) <==>
                 && n == bytes[start + 8] as int + 256 * (bytes[start + 9] as int)
                 && bytes[start + 8] == bytes[start + 10] && bytes[start + 9] == bytes[start + 11]
                 && n < 65535)
    ensures start + 22 <= |bytes| && Declared(bytes, start).Err? ==> Declared(bytes, start) == Err(ZipInvalid)
  {
    if start + 22 <= |bytes| {
      var head := bytes[start..start + 4];
      assert head == [bytes[start], bytes[start + 1], bytes[start + 2], bytes[start + 3]];
    }
  }

  ghost predicate IsLastRecord(bytes: seq<Byte>, start: nat) {
    RecordAt(bytes, start) && forall later :: start < later ==> !RecordAt(bytes, later)
  }

  /** Dropping a prefix shifts the records it does not cut. */
  lemma TailShiftsRecords(file: seq<Byte>, dropped: nat, start: nat)
    requires dropped <= |file|
    ensures RecordAt(file[dropped..], start) <==> RecordAt(file, dropped + start)
    ensures start + ZIP_EOCD_MIN_BYTES <= |file| - dropped ==>
              Declared(file[dropped..], start) == Declared(file, dropped + start)
  {
    var tail := file[dropped..];
    if start + ZIP_EOCD_MIN_BYTES <= |tail| {
      assert tail[start..start + 4] == file[dropped + start..dropped + start + 4];
      assert tail[start + 20] == file[dropped + start + 20] && tail[start + 21] == file[dropped + start + 21];
    }
  }

  /** A record can only start within the last 22 + 65535 bytes. */
  lemma RecordsLieInTheTail(file: seq<Byte>, start: nat)
    requires RecordAt(file, start)
    ensures |file| - start <= ZIP_EOCD_MIN_BYTES + ZIP_MAX_COMMENT_BYTES
  {
  }

  /**
   Reading only the last 22 + 65535 bytes decides exactly what the whole file
   does: the last record of the file gives the count or the rejection, and a
   file without one is rejected.
   */
  method DeclaredZipEntryCount(file: seq<Byte>) returns (r: Result<nat, ManifestError>)
    ensures forall start: nat :: IsLastRecord(file, start) ==> r == Declared(file, start)
    ensures (forall start: nat :: !RecordAt(file, start)) ==> r == Err(ZipInvalid)
  {
    var tailSize := ZIP_EOCD_MIN_BYTES + ZIP_MAX_COMMENT_BYTES;
    if |file| < tailSize {
      tailSize := |file|;
    }
    var dropped := |file| - tailSize;
    var tail := file[dropped..];
    var start := if |tail| < ZIP_EOCD_MIN_BYTES then 0 else |tail| - ZIP_EOCD_MIN_BYTES;
    while true
      invariant 0 <= start <= |tail|
      invariant forall later: nat :: start < later ==> !RecordAt(tail, later)
      decreases start
    {
      if |tail| - start >= ZIP_EOCD_MIN_BYTES && tail[start..start + 4] == SIGNATURE {
        var commentLength := U16(tail[start + 20], tail[start + 21]);
        if ZIP_EOCD_MIN_BYTES + commentLength == |tail| - start {
          assert RecordAt(tail, start);
          var onDisk, total := U16(tail[start + 8], tail[start + 9]), U16(tail[start + 10], tail[start + 11]);
          if onDisk != total || total == 0xffff {
            r := Err(ZipInvalid);
          } else {
            r := Ok(total);
          }
          assert r == Declared(tail, start);
          LastRecordOfTailIsLast(file, dropped, start);
          return;
        }
      }
      if start == 0 {
        break;
      }
      start := start - 1;
    }
    NoRecordOutsideTail(file, dropped);
    return Err(ZipInvalid);
  }

  lemma LastRecordOfTailIsLast(file: seq<Byte>, dropped: nat, start: nat)
    requires dropped <= |file| && IsLastRecord(file[dropped..], start)
    ensures forall p: nat :: IsLastRecord(file, p) ==> p == dropped + start
    ensures RecordAt(file, dropped + start) && Declared(file[dropped..], start) == Declared(file, dropped + start)
  {
    TailShiftsRecords(file, dropped, start);
    forall p: nat | IsLastRecord(file, p) ensures p == dropped + start {
      if p > dropped + start {
        TailShiftsRecords(file, dropped, p - dropped);
      }
    }
  }

  lemma NoRecordOutsideTail(file: seq<Byte>, dropped: nat)
    requires dropped <= |file|
    requires dropped == 0 || |file| - dropped == ZIP_EOCD_MIN_BYTES + ZIP_MAX_COMMENT_BYTES
    requires forall start: nat :: !RecordAt(file[dropped..], start)
    ensures forall start: nat :: !RecordAt(file, start)
  {
    forall start: nat ensures !RecordAt(file, start) {
      if RecordAt(file, start) {
        RecordsLieInTheTail(file, start);
        TailShiftsRecords(file, dropped, start - dropped);
      }
    }
  }

  // ---- Integer attributes ---------------------------------------------------------------

  const TYPED_DECIMAL_PREFIX: string := "(type 0x10) 0x"
  const TYPED_HEXADECIMAL_PREFIX: string := "(type 0x11) 0x"

  predicate IsAsciiLetter(c: char) {
    'a' <= c <= 'z' || 'A' <= c <= 'Z'
  }

  /** An SDK codename: a letter, then letters, digits and underscores. */
  predicate IsCodename(value: string) {
    && value != ""
    && IsAsciiLetter(value[0])
    && forall i :: 0 <= i < |value| ==> IsAsciiLetter(value[i]) || IsDigit(value[i]) || value[i] == '_'
  }

  function NormalizeIntegerValue(value: string, allowSdkCodename: bool): Result<string, ManifestError> {
    if TYPED_DECIMAL_PREFIX <= value || TYPED_HEXADECIMAL_PREFIX <= value then
      var encoded := ParseHexU32(value[|TYPED_DECIMAL_PREFIX|..]);
      if encoded.None? then Err(ManifestInvalid) else Ok(ToDecimal(encoded.value))
    else if IsCanonicalU32(value) then Ok(value)
    else if allowSdkCodename && IsCodename(value) then Ok(value)
    else Err(ManifestInvalid)
  }

  lemma UntypedText(value: string)
    requires value != "" && value[0] != '('
    ensures !(TYPED_DECIMAL_PREFIX <= value) && !(TYPED_HEXADECIMAL_PREFIX <= value)
  {
    assert TYPED_DECIMAL_PREFIX[0] == '(' && TYPED_HEXADECIMAL_PREFIX[0] == '(';
  }

  /** Without codenames every accepted value is the canonical decimal text of a 32-bit number. */
  lemma NormalizedIsCanonical(value: string, allowSdkCodename: bool)
    requires NormalizeIntegerValue(value, allowSdkCodename).Ok?
    ensures var text := NormalizeIntegerValue(value, allowSdkCodename).value;
            IsCanonicalU32(text) || (allowSdkCodename && IsCodename(text))
  {
    if TYPED_DECIMAL_PREFIX <= value || TYPED_HEXADECIMAL_PREFIX <= value {
      PrintedU32IsCanonical(ParseHexU32(value[|TYPED_DECIMAL_PREFIX|..]).value);
    }
  }

  /** Normalizing twice is normalizing once, typed encodings and codenames included. */
  lemma NormalizeIsIdempotent(value: string, allowSdkCodename: bool)
    requires NormalizeIntegerValue(value, allowSdkCodename).Ok?
    ensures var text := NormalizeIntegerValue(value, allowSdkCodename).value;
            NormalizeIntegerValue(text, allowSdkCodename) == Ok(text)
  {
    var text := NormalizeIntegerValue(value, allowSdkCodename).value;
    NormalizedIsCanonical(value, allowSdkCodename);
    UntypedText(text) by {
      if IsCanonicalU32(text) {
        assert IsDigit(text[0]);
      }
    }
  }

  // ---- What normalization answers, on every text ------------------------------------------

  const LOWER_LETTERS: string := "abcdefghijklmnopqrstuvwxyz"
  const UPPER_LETTERS: string := "ABCDEFGHIJKLMNOPQRSTUVWXYZ"

  ghost predicate IsLetter(c: char) {
    c in LOWER_LETTERS || c in UPPER_LETTERS
  }

  /** A compiled integer: a type marker and a hexadecimal number. */
  ghost predicate IsTypedText(value: string, digits: string) {
    value == "(type 0x10) 0x" + digits || value == "(type 0x11) 0x" + digits
  }

  ghost predicate WritesTyped(value: string, n: nat) {
    exists encoded, digits ::
      IsTypedText(value, encoded) && WithOptionalPlus(encoded, digits) && WritesHex(digits, n)
  }

  ghost predicate IsPrintedU32(value: string) {
    exists n: nat :: n < 4294967296 && value == ToDecimal(n)
  }

  ghost predicate NamesCodename(value: string) {
    && value != "" && IsLetter(value[0])
    && forall c :: c in value ==> IsLetter(c) || c in DECIMAL_DIGITS || c == '_'
  }

  /**
   A normalized text is the decimal number a compiled value encodes, a decimal
   number that already is in that form, or a codename where one is allowed.
   */
  ghost predicate NormalizesTo(value: string, allowSdkCodename: bool, text: string) {
    || (exists n: nat :: n < 4294967296 && WritesTyped(value, n) && text == ToDecimal(n))
    || (text == value && IsPrintedU32(value))
    || (text == value && allowSdkCodename && NamesCodename(value))
  }

  lemma LettersAreAscii(c: char)
    ensures IsAsciiLetter(c) <==> IsLetter(c)
  {
    LowerLettersInOrder();
    UpperLettersInOrder();
    if 'a' <= c <= 'z' {
      assert LOWER_LETTERS[c as int - 'a' as int] == c;
    } else if 'A' <= c <= 'Z' {
      assert UPPER_LETTERS[c as int - 'A' as int] == c;
    }
  }

  lemma LowerLettersInOrder()
    ensures |LOWER_LETTERS| == 26 && forall i :: 0 <= i < 26 ==> LOWER_LETTERS[i] as int == 'a' as int + i
  {
  }

  lemma UpperLettersInOrder()
    ensures |UPPER_LETTERS| == 26 && forall i :: 0 <= i < 26 ==> UPPER_LETTERS[i] as int == 'A' as int + i
  {
  }

  lemma CodenamesAreNamed(value: string)
    ensures IsCodename(value) <==> NamesCodename(value)
  {
    if value != "" {
      LettersAreAscii(value[0]);
    }
    forall i | 0 <= i < |value|
      ensures IsAsciiLetter(value[i]) || IsDigit(value[i]) || value[i] == '_' <==>
              IsLetter(value[i]) || value[i] in DECIMAL_DIGITS || value[i] == '_'
    {
      LettersAreAscii(value[i]);
      DecimalDigits(value[i]);
    }
  }

  /** An untyped decimal text is canonical exactly if printing some `u32` gives it. */
  lemma CanonicalIffPrinted(value: string)
    ensures IsCanonicalU32(value) <==> IsPrintedU32(value)
  {
    if IsPrintedU32(value) {
      var n: nat :| n < 4294967296 && value == ToDecimal(n);
      PrintedU32IsCanonical(n);
    }
  }

  lemma TypedPrefix(value: string)
    ensures forall encoded :: IsTypedText(value, encoded) ==>
              && (TYPED_DECIMAL_PREFIX <= value || TYPED_HEXADECIMAL_PREFIX <= value)
              && encoded == value[|TYPED_DECIMAL_PREFIX|..]
    ensures TYPED_DECIMAL_PREFIX <= value || TYPED_HEXADECIMAL_PREFIX <= value ==>
              IsTypedText(value, value[|TYPED_DECIMAL_PREFIX|..])
  {
    var k := |TYPED_DECIMAL_PREFIX|;
    assert k == |TYPED_HEXADECIMAL_PREFIX| == 14;
    assert k <= |value| ==> value == value[..k] + value[k..];
    assert TYPED_DECIMAL_PREFIX <= value ==> value[..k] == TYPED_DECIMAL_PREFIX;
    assert TYPED_HEXADECIMAL_PREFIX <= value ==> value[..k] == TYPED_HEXADECIMAL_PREFIX;
    forall encoded | IsTypedText(value, encoded)
      ensures TYPED_DECIMAL_PREFIX <= value || TYPED_HEXADECIMAL_PREFIX <= value
      ensures encoded == value[|TYPED_DECIMAL_PREFIX|..]
    {
      assert value == TYPED_DECIMAL_PREFIX + encoded || value == TYPED_HEXADECIMAL_PREFIX + encoded;
    }
  }

  /** A text that is no compiled integer is neither a number nor a codename in disguise. */
  lemma TypedIsNothingElse(value: string, encoded: string)
    requires IsTypedText(value, encoded)
    ensures !IsCodename(value) && forall n: nat :: value != ToDecimal(n)
  {
    assert value[0] == '(';
    forall n: nat ensures value != ToDecimal(n) {
      assert IsDigit(ToDecimal(n)[0]);
    }
  }

  lemma TypedTextMeans(value: string, encoded: string, text: string)
    requires IsTypedText(value, encoded)
    ensures (ParseHexU32(encoded).Some? && text == ToDecimal(ParseHexU32(encoded).value))
            <==> exists n: nat :: n < 4294967296 && WritesTyped(value, n) && text == ToDecimal(n)
  {
    TypedPrefix(value);
    if ParseHexU32(encoded).Some? {
      ParseHexU32Iff(encoded, ParseHexU32(encoded).value);
    }
    if exists n: nat :: n < 4294967296 && WritesTyped(value, n) && text == ToDecimal(n) {
      var n: nat :| n < 4294967296 && WritesTyped(value, n) && text == ToDecimal(n);
      ParseHexU32Iff(encoded, n);
    }
  }

  lemma UntypedTextMeans(value: string, allowSdkCodename: bool, text: string)
    requires forall encoded :: !IsTypedText(value, encoded)
    ensures NormalizeIntegerValue(value, allowSdkCodename) == Ok(text) <==> NormalizesTo(value, allowSdkCodename, text)
  {
    TypedPrefix(value);
    assert !(TYPED_DECIMAL_PREFIX <= value) && !(TYPED_HEXADECIMAL_PREFIX <= value);
    CanonicalIffPrinted(value);
    CodenamesAreNamed(value);
    assert forall n: nat :: !WritesTyped(value, n);
  }

  /** On every text, in terms of the numbers and names it writes. */
  lemma NormalizationMeans(value: string, allowSdkCodename: bool, text: string)
    ensures NormalizeIntegerValue(value, allowSdkCodename) == Ok(text) <==> NormalizesTo(value, allowSdkCodename, text)
  {
    if exists encoded :: IsTypedText(value, encoded) {
      var encoded :| IsTypedText(value, encoded);
      TypedPrefix(value);
      TypedIsNothingElse(value, encoded);
      CodenamesAreNamed(value);
      TypedTextMeans(value, encoded, text);
    } else {
      UntypedTextMeans(value, allowSdkCodename, text);
    }
  }

  /** Every compiled `u32` normalizes to its decimal text, in either radix marker, letter case and any padding. */
  lemma CompiledIntegerNormalizes(n: nat, encoded: string, allowSdkCodename: bool)
    requires n < 4294967296 && WritesHex(encoded, n)
    ensures NormalizeIntegerValue("(type 0x10) 0x" + encoded, allowSdkCodename) == Ok(ToDecimal(n))
    ensures NormalizeIntegerValue("(type 0x11) 0x" + encoded, allowSdkCodename) == Ok(ToDecimal(n))
  {
    assert WithOptionalPlus(encoded, encoded);
    assert IsTypedText("(type 0x10) 0x" + encoded, encoded) && IsTypedText("(type 0x11) 0x" + encoded, encoded);
    NormalizationMeans("(type 0x10) 0x" + encoded, allowSdkCodename, ToDecimal(n));
    NormalizationMeans("(type 0x11) 0x" + encoded, allowSdkCodename, ToDecimal(n));
  }

  // ---- Fact extraction ---------------------------------------------------------------------

  datatype DeclarationKind = UsesPermission | UsesPermissionSdk23

  datatype Declaration = Declaration(name: string, kind: DeclarationKind, maxSdkVersion: Option<string>)

  predicate KindLeq(a: DeclarationKind, b: DeclarationKind) {
    a.UsesPermission? || b.UsesPermissionSdk23?
  }

  predicate MaximumLeq(a: Option<string>, b: Option<string>) {
    a.None? || (b.Some? && TextLeq(a.value, b.value))
  }

  /** The derived order of declarations: name, kind, then maximum with none first. */
  predicate DeclarationLeq(a: Declaration, b: Declaration) {
    if a.name != b.name then TextLeq(a.name, b.name)
    else if a.kind != b.kind then KindLeq(a.kind, b.kind)
    else MaximumLeq(a.maxSdkVersion, b.maxSdkVersion)
  }

  /** The order in the terms Rust derives it: by name, then kind, then maximum, with no maximum first. */
  lemma DeclarationOrderMeans(a: Declaration, b: Declaration)
    ensures DeclarationLeq(a, b) && a != b <==>
            || TextBefore(a.name, b.name)
            || (a.name == b.name && a.kind.UsesPermission? && b.kind.UsesPermissionSdk23?)
            || (a.name == b.name && a.kind == b.kind && b.maxSdkVersion.Some?
                && (a.maxSdkVersion.None? || TextBefore(a.maxSdkVersion.value, b.maxSdkVersion.value)))
  {
    TextOrderMeans(a.name, b.name);
    if a.maxSdkVersion.Some? && b.maxSdkVersion.Some? {
      TextOrderMeans(a.maxSdkVersion.value, b.maxSdkVersion.value);
    }
  }

  lemma DeclarationOrderIsTotal()
    ensures TotalOrder(DeclarationLeq)
  {
    forall a: Declaration, b: Declaration ensures DeclarationLeq(a, b) || DeclarationLeq(b, a) {
      DeclarationPair(a, b);
    }
    forall a: Declaration, b: Declaration | DeclarationLeq(a, b) && DeclarationLeq(b, a) ensures a == b {
      DeclarationPair(a, b);
    }
    forall a, b, c {:trigger Chain(a, b, c)} | DeclarationLeq(a, b) && DeclarationLeq(b, c)
      ensures DeclarationLeq(a, c)
    {
      DeclarationChain(a, b, c);
    }
  }

  lemma DeclarationPair(a: Declaration, b: Declaration)
    ensures DeclarationLeq(a, b) || DeclarationLeq(b, a)
    ensures DeclarationLeq(a, b) && DeclarationLeq(b, a) ==> a == b
  {
    TextTotal(a.name, b.name);
    if a.maxSdkVersion.Some? && b.maxSdkVersion.Some? {
      TextTotal(a.maxSdkVersion.value, b.maxSdkVersion.value);
    }
  }

  lemma DeclarationChain(a: Declaration, b: Declaration, c: Declaration)
    requires DeclarationLeq(a, b) && DeclarationLeq(b, c)
    ensures DeclarationLeq(a, c)
  {
    TextTotal(a.name, b.name);
    TextTotal(b.name, c.name);
    if TextLeq(a.name, b.name) && TextLeq(b.name, c.name) {
      TextTransitive(a.name, b.name, c.name);
    }
    if a.maxSdkVersion.Some? && b.maxSdkVersion.Some? && c.maxSdkVersion.Some?
       && TextLeq(a.maxSdkVersion.value, b.maxSdkVersion.value)
       && TextLeq(b.maxSdkVersion.value, c.maxSdkVersion.value) {
      TextTransitive(a.maxSdkVersion.value, b.maxSdkVersion.value, c.maxSdkVersion.value);
    }
  }

  /** A direct child of the manifest root, with the attributes the extraction reads. */
  datatype Element =
    | UsesSdk(minSdkVersion: Option<string>, targetSdkVersion: Option<string>)
    | Permission(kind: DeclarationKind, name: Option<string>, maxSdkVersion: Option<string>)
    | Other

  datatype Facts = Facts(
    minSdkVersion: Option<string>,
    targetSdkVersion: Option<string>,
    permissions: seq<Declaration>)

  function IntegerAttribute(value: Option<string>, allowSdkCodename: bool): Result<Option<string>, ManifestError> {
    if value.None? then Ok(None)
    else
      var text := NormalizeIntegerValue(value.value, allowSdkCodename);
      if text.Err? then Err(text.error) else Ok(Some(text.value))
  }

  /** Unicode `White_Space`, which Rust's `trim` removes. */
  predicate IsSpace(c: char) {
    || '\U{9}' <= c <= '\U{D}' || c == ' ' || c == '\U{85}' || c == '\U{A0}' || c == '\U{1680}'
    || '\U{2000}' <= c <= '\U{200A}' || c == '\U{2028}' || c == '\U{2029}' || c == '\U{202F}'
    || c == '\U{205F}' || c == '\U{3000}'
  }

  function TrimStart(s: string): string {
    if s != "" && IsSpace(s[0]) then TrimStart(s[1..]) else s
  }

  function TrimEnd(s: string): string {
    if s != "" && IsSpace(s[|s| - 1]) then TrimEnd(s[..|s| - 1]) else s
  }

  function PermissionDeclaration(kind: DeclarationKind, name: Option<string>, maxSdkVersion: Option<string>)
    : Result<Declaration, ManifestError>
  {
    if name.None? || TrimEnd(TrimStart(name.value)) == "" then Err(ManifestInvalid)
    else
      var maximum := IntegerAttribute(maxSdkVersion, false);
      if maximum.Err? then Err(maximum.error)
      else Ok(Declaration(TrimEnd(TrimStart(name.value)), kind, maximum.value))
  }

  /** What an element contributes when extraction accepts it. */
  ghost predicate Acceptable(e: Element) {
    match e
    case UsesSdk(minimum, target) => IntegerAttribute(minimum, true).Ok? && IntegerAttribute(target, true).Ok?
    case Permission(kind, name, maximum) => PermissionDeclaration(kind, name, maximum).Ok?
    case Other => true
  }

  ghost predicate AtMostOneUsesSdk(children: seq<Element>) {
    forall i, j :: 0 <= i < j < |children| ==> !(children[i].UsesSdk? && children[j].UsesSdk?)
  }

  ghost predicate Declares(children: seq<Element>, d: Declaration) {
    exists i :: 0 <= i < |children| && children[i].Permission?
                && PermissionDeclaration(children[i].kind, children[i].name, children[i].maxSdkVersion) == Ok(d)
  }

  ghost predicate SdkAgrees(children: seq<Element>, minimum: Option<string>, target: Option<string>) {
    && (forall e :: e in children && e.UsesSdk? ==>
          && IntegerAttribute(e.minSdkVersion, true) == Ok(minimum)
          && IntegerAttribute(e.targetSdkVersion, true) == Ok(target))
    && ((forall e :: e in children ==> !e.UsesSdk?) ==> minimum.None? && target.None?)
  }

  ghost predicate Extractable(children: seq<Element>) {
    AtMostOneUsesSdk(children) && forall e :: e in children ==> Acceptable(e)
  }

  ghost predicate IsExtractionOf(facts: Facts, children: seq<Element>) {
    && SdkAgrees(children, facts.minSdkVersion, facts.targetSdkVersion)
    && forall d :: d in facts.permissions <==> Declares(children, d)
  }

  // ---- The facts, in terms of the attribute texts ---------------------------------------------

  /** Unicode's `White_Space` characters. */
  const WHITE_SPACE: string :=
    "\U{9}\U{A}\U{B}\U{C}\U{D} \U{85}\U{A0}\U{1680}\U{2000}\U{2001}\U{2002}\U{2003}\U{2004}\U{2005}\U{2006}"
    + "\U{2007}\U{2008}\U{2009}\U{200A}\U{2028}\U{2029}\U{202F}\U{205F}\U{3000}"

  ghost predicate IsBlank(s: string) {
    forall c :: c in s ==> c in WHITE_SPACE
  }

  /** `text` is what is left of `value` without the blanks around it. */
  ghost predicate Trims(value: string, text: string) {
    && (exists before, after :: IsBlank(before) && IsBlank(after) && value == before + text + after)
    && (text != "" ==> text[0] !in WHITE_SPACE && text[|text| - 1] !in WHITE_SPACE)
  }

  lemma SpacesAreWhiteSpace(c: char)
    ensures IsSpace(c) <==> c in WHITE_SPACE
  {
  }

  /** The same in terms of the classification trimming uses. */
  ghost predicate AreSpaces(s: string) {
    forall i :: 0 <= i < |s| ==> IsSpace(s[i])
  }

  ghost predicate EndsInText(s: string) {
    s != "" ==> !IsSpace(s[0]) && !IsSpace(s[|s| - 1])
  }

  ghost predicate IsBetween(value: string, before: string, text: string, after: string) {
    value == before + text + after && AreSpaces(before) && AreSpaces(after) && EndsInText(text)
  }

  lemma {:induction false} TrimStartLeaves(before: string, rest: string)
    requires AreSpaces(before) && (rest == "" || !IsSpace(rest[0]))
    ensures TrimStart(before + rest) == rest
  {
    if before == "" {
      assert before + rest == rest;
    } else {
      TrimStartLeaves(before[1..], rest);
      assert (before + rest)[1..] == before[1..] + rest;
    }
  }

  lemma {:induction false} TrimEndLeaves(rest: string, after: string)
    requires AreSpaces(after) && (rest == "" || !IsSpace(rest[|rest| - 1]))
    ensures TrimEnd(rest + after) == rest
  {
    if after == "" {
      assert rest + after == rest;
    } else {
      TrimEndLeaves(rest, after[..|after| - 1]);
      assert (rest + after)[..|rest + after| - 1] == rest + after[..|after| - 1];
    }
  }

  lemma {:induction false} TrimStartDropsSpaces(s: string) returns (before: string)
    ensures AreSpaces(before) && s == before + TrimStart(s)
    ensures TrimStart(s) != "" ==> !IsSpace(TrimStart(s)[0])
  {
    if s != "" && IsSpace(s[0]) {
      var more := TrimStartDropsSpaces(s[1..]);
      before := [s[0]] + more;
    } else {
      before := "";
    }
  }

  lemma {:induction false} TrimEndDropsSpaces(s: string) returns (after: string)
    ensures AreSpaces(after) && s == TrimEnd(s) + after
    ensures TrimEnd(s) != "" ==> !IsSpace(TrimEnd(s)[|TrimEnd(s)| - 1]) && TrimEnd(s)[0] == s[0]
  {
    if s != "" && IsSpace(s[|s| - 1]) {
      var more := TrimEndDropsSpaces(s[..|s| - 1]);
      after := more + [s[|s| - 1]];
    } else {
      after := "";
    }
  }

  lemma TrimmedIsBetween(value: string) returns (before: string, after: string)
    ensures IsBetween(value, before, TrimEnd(TrimStart(value)), after)
  {
    before := TrimStartDropsSpaces(value);
    after := TrimEndDropsSpaces(TrimStart(value));
  }

  lemma BetweenIsTrimmed(value: string, before: string, text: string, after: string)
    requires IsBetween(value, before, text, after)
    ensures TrimEnd(TrimStart(value)) == text
  {
    if text == "" {
      assert value == before + after + "";
      TrimStartLeaves(before + after, "");
    } else {
      assert value == before + (text + after);
      TrimStartLeaves(before, text + after);
      TrimEndLeaves(text, after);
    }
  }

  lemma BlanksAreSpaces(s: string)
    ensures IsBlank(s) <==> AreSpaces(s)
  {
    forall i | 0 <= i < |s| ensures IsSpace(s[i]) <==> s[i] in WHITE_SPACE {
      SpacesAreWhiteSpace(s[i]);
    }
  }

  lemma TrimsMeans(value: string, before: string, text: string, after: string)
    ensures IsBetween(value, before, text, after) <==>
            && value == before + text + after && IsBlank(before) && IsBlank(after)
            && (text != "" ==> text[0] !in WHITE_SPACE && text[|text| - 1] !in WHITE_SPACE)
  {
    BlanksAreSpaces(before);
    BlanksAreSpaces(after);
    if text != "" {
      SpacesAreWhiteSpace(text[0]);
      SpacesAreWhiteSpace(text[|text| - 1]);
    }
  }

  /** Trimming both ends, whatever is between. */
  lemma TrimmingMeans(value: string, text: string)
    ensures TrimEnd(TrimStart(value)) == text <==> Trims(value, text)
  {
    var start, end := TrimmedIsBetween(value);
    TrimsMeans(value, start, TrimEnd(TrimStart(value)), end);
    if Trims(value, text) {
      var before, after :| IsBlank(before) && IsBlank(after) && value == before + text + after;
      TrimsMeans(value, before, text, after);
      BetweenIsTrimmed(value, before, text, after);
    }
  }

  /** An optional attribute and what the facts hold for it. */
  ghost predicate AttributeIs(value: Option<string>, allowSdkCodename: bool, text: Option<string>) {
    match value
    case None => text.None?
    case Some(v) => text.Some? && NormalizesTo(v, allowSdkCodename, text.value)
  }

  ghost predicate AttributeIsReadable(value: Option<string>, allowSdkCodename: bool) {
    exists text :: AttributeIs(value, allowSdkCodename, text)
  }

  lemma AttributeMeans(value: Option<string>, allowSdkCodename: bool, text: Option<string>)
    ensures IntegerAttribute(value, allowSdkCodename) == Ok(text) <==> AttributeIs(value, allowSdkCodename, text)
  {
    if value.Some? && text.Some? {
      NormalizationMeans(value.value, allowSdkCodename, text.value);
    }
  }

  lemma ReadableMeans(value: Option<string>, allowSdkCodename: bool)
    ensures IntegerAttribute(value, allowSdkCodename).Ok? <==> AttributeIsReadable(value, allowSdkCodename)
  {
    if IntegerAttribute(value, allowSdkCodename).Ok? {
      AttributeMeans(value, allowSdkCodename, IntegerAttribute(value, allowSdkCodename).value);
    }
    if AttributeIsReadable(value, allowSdkCodename) {
      var text :| AttributeIs(value, allowSdkCodename, text);
      AttributeMeans(value, allowSdkCodename, text);
    }
  }

  /** The element declares exactly this permission. */
  ghost predicate ElementDeclares(e: Element, d: Declaration) {
    && e.Permission? && e.kind == d.kind
    && e.name.Some? && d.name != "" && Trims(e.name.value, d.name)
    && AttributeIs(e.maxSdkVersion, false, d.maxSdkVersion)
  }

  lemma DeclarationMeans(e: Element, d: Declaration)
    ensures e.Permission? && PermissionDeclaration(e.kind, e.name, e.maxSdkVersion) == Ok(d) <==> ElementDeclares(e, d)
  {
    if e.Permission? && e.name.Some? {
      TrimmingMeans(e.name.value, d.name);
      AttributeMeans(e.maxSdkVersion, false, d.maxSdkVersion);
    }
  }

  /** An element extraction can read: SDK versions or a named permission. */
  ghost predicate IsReadable(e: Element) {
    match e
    case UsesSdk(minimum, target) => AttributeIsReadable(minimum, true) && AttributeIsReadable(target, true)
    case Permission(_, _, _) => exists d :: ElementDeclares(e, d)
    case Other => true
  }

  lemma AcceptableMeans(e: Element)
    ensures Acceptable(e) <==> IsReadable(e)
  {
    match e
    case UsesSdk(minimum, target) =>
      ReadableMeans(minimum, true);
      ReadableMeans(target, true);
    case Permission(kind, name, maximum) =>
      if PermissionDeclaration(kind, name, maximum).Ok? {
        DeclarationMeans(e, PermissionDeclaration(kind, name, maximum).value);
      }
      if exists d :: ElementDeclares(e, d) {
        var d :| ElementDeclares(e, d);
        DeclarationMeans(e, d);
      }
    case Other =>
  }

  /**
   What an extraction says, in terms of the attribute texts alone: it exists
   exactly if every element is readable and at most one is `uses-sdk`; it then
   holds that element's versions and exactly the declared permissions.
   */
  lemma ExtractionMeans(children: seq<Element>, facts: Facts)
    ensures Extractable(children) <==>
            && (forall e :: e in children ==> IsReadable(e))
            && (forall i, j :: 0 <= i < j < |children| && children[i].UsesSdk? ==> !children[j].UsesSdk?)
    ensures IsExtractionOf(facts, children) <==>
            && (forall d :: d in facts.permissions <==> exists e :: e in children && ElementDeclares(e, d))
            && (forall e :: e in children && e.UsesSdk? ==>
                  && AttributeIs(e.minSdkVersion, true, facts.minSdkVersion)
                  && AttributeIs(e.targetSdkVersion, true, facts.targetSdkVersion))
            && ((forall e :: e in children ==> !e.UsesSdk?) ==>
                  facts.minSdkVersion.None? && facts.targetSdkVersion.None?)
  {
    forall e: Element ensures Acceptable(e) <==> IsReadable(e) {
      AcceptableMeans(e);
    }
    forall e: Element | e.UsesSdk?
      ensures IntegerAttribute(e.minSdkVersion, true) == Ok(facts.minSdkVersion)
              <==> AttributeIs(e.minSdkVersion, true, facts.minSdkVersion)
      ensures IntegerAttribute(e.targetSdkVersion, true) == Ok(facts.targetSdkVersion)
              <==> AttributeIs(e.targetSdkVersion, true, facts.targetSdkVersion)
    {
      AttributeMeans(e.minSdkVersion, true, facts.minSdkVersion);
      AttributeMeans(e.targetSdkVersion, true, facts.targetSdkVersion);
    }
    forall d ensures Declares(children, d) <==> exists e :: e in children && ElementDeclares(e, d) {
      DeclaresMeans(children, d);
    }
  }

  lemma DeclaresMeans(children: seq<Element>, d: Declaration)
    ensures Declares(children, d) <==> exists e :: e in children && ElementDeclares(e, d)
  {
    forall e: Element ensures e.Permission? && PermissionDeclaration(e.kind, e.name, e.maxSdkVersion) == Ok(d)
                     <==> ElementDeclares(e, d) {
      DeclarationMeans(e, d);
    }
  }

  /** The list after `sort` and `dedup`: strictly ascending, with the same declarations. */
  lemma ArrangedKeepsDeclarations(declarations: seq<Declaration>)
    ensures var arranged := Dedup(Sort(DeclarationLeq, declarations));
            && StrictlySortedBy(DeclarationLeq, arranged)
            && forall d :: d in arranged <==> d in declarations
  {
    DeclarationOrderIsTotal();
    SortSorts(DeclarationLeq, declarations);
    DedupOfSortedIsStrict(DeclarationLeq, Sort(DeclarationLeq, declarations));
    MembersOfMultiset(Sort(DeclarationLeq, declarations), declarations);
  }

  lemma ExtractableGrows(seen: seq<Element>, e: Element)
    ensures Extractable(seen + [e]) <==>
            Extractable(seen) && Acceptable(e) && (e.UsesSdk? ==> forall s :: s in seen ==> !s.UsesSdk?)
  {
    var all := seen + [e];
    assert forall s :: s in all <==> s in seen || s == e;
    assert all[|seen|] == e && forall i :: 0 <= i < |seen| ==> all[i] == seen[i];
    if AtMostOneUsesSdk(all) && e.UsesSdk? {
      forall s | s in seen ensures !s.UsesSdk? {
        var i :| 0 <= i < |seen| && seen[i] == s;
        assert all[i] == s;
      }
    }
  }

  lemma DeclaresGrows(seen: seq<Element>, e: Element, d: Declaration)
    ensures Declares(seen + [e], d) <==>
            Declares(seen, d) || (e.Permission? && PermissionDeclaration(e.kind, e.name, e.maxSdkVersion) == Ok(d))
  {
    var all := seen + [e];
    assert all[|seen|] == e && forall i :: 0 <= i < |seen| ==> all[i] == seen[i];
  }

  /** What one accepted element adds to the facts. */
  function AddElement(facts: Facts, e: Element): Result<Facts, ManifestError> {
    match e
    case UsesSdk(minimumText, targetText) =>
      var minimum, target := IntegerAttribute(minimumText, true), IntegerAttribute(targetText, true);
      if minimum.Err? then Err(minimum.error)
      else if target.Err? then Err(target.error)
      else Ok(facts.(minSdkVersion := minimum.value, targetSdkVersion := target.value))
    case Permission(kind, name, maximum) =>
      var declaration := PermissionDeclaration(kind, name, maximum);
      if declaration.Err? then Err(declaration.error)
      else Ok(facts.(permissions := facts.permissions + [declaration.value]))
    case Other => Ok(facts)
  }

  lemma ExtractionGrows(facts: Facts, seen: seq<Element>, e: Element)
    requires IsExtractionOf(facts, seen) && Acceptable(e)
    requires e.UsesSdk? ==> forall s :: s in seen ==> !s.UsesSdk?
    ensures AddElement(facts, e).Ok? && IsExtractionOf(AddElement(facts, e).value, seen + [e])
  {
    var all, after := seen + [e], AddElement(facts, e).value;
    assert forall s :: s in all <==> s in seen || s == e;
    forall d ensures d in after.permissions <==> Declares(all, d) {
      DeclaresGrows(seen, e, d);
    }
  }

  /**
   Extraction succeeds exactly on manifests with at most one `uses-sdk` whose
   attributes all normalize; it then reports that element's SDK versions and
   each declared permission once, in ascending order.
   */
  method ExtractManifestFacts(children: seq<Element>) returns (r: Result<Facts, ManifestError>)
    ensures r.Ok? <==> Extractable(children)
    ensures r.Ok? ==> IsExtractionOf(r.value, children)
    ensures r.Ok? ==> StrictlySortedBy(DeclarationLeq, r.value.permissions)
    ensures r.Err? ==> r.error == ManifestInvalid
  {
    var facts := Facts(None, None, []);
    var usesSdkSeen := false;
    for i := 0 to |children|
      invariant usesSdkSeen <==> exists e :: e in children[..i] && e.UsesSdk?
      invariant Extractable(children[..i]) && IsExtractionOf(facts, children[..i])
    {
      var child := children[i];
      assert children[..i + 1] == children[..i] + [child];
      ExtractableGrows(children[..i], child);
      if child.UsesSdk? && usesSdkSeen {
        StaysUnextractable(children, i + 1);
        return Err(ManifestInvalid);
      }
      var added := AddElement(facts, child);
      if added.Err? {
        StaysUnextractable(children, i + 1);
        return Err(added.error);
      }
      ExtractionGrows(facts, children[..i], child);
      facts := added.value;
      usesSdkSeen := usesSdkSeen || child.UsesSdk?;
    }
    assert children[..|children|] == children;
    ArrangedKeepsDeclarations(facts.permissions);
    r := Ok(facts.(permissions := Dedup(Sort(DeclarationLeq, facts.permissions))));
  }

  lemma StaysUnextractable(children: seq<Element>, n: nat)
    requires n <= |children| && !Extractable(children[..n])
    ensures !Extractable(children)
  {
    if forall e :: e in children ==> Acceptable(e) {
      assert forall e :: e in children[..n] ==> e in children;
    }
  }

  /** Every maximum in extracted facts is canonical, so a later numeric parse of it cannot fail. */
  lemma ExtractedMaximumParses(children: seq<Element>, d: Declaration)
    requires Declares(children, d)
    ensures d.maxSdkVersion.Some? ==> IsCanonicalU32(d.maxSdkVersion.value)
  {
    var i :| 0 <= i < |children| && children[i].Permission?
             && PermissionDeclaration(children[i].kind, children[i].name, children[i].maxSdkVersion) == Ok(d);
    if d.maxSdkVersion.Some? {
      NormalizedIsCanonical(children[i].maxSdkVersion.value, false);
    }
  }
}
