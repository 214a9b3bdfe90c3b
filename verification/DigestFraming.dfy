/**
 The byte streams fed to SHA-256: the catalog digest of `catalog_source.rs`
 and the generated-pair request digest of `app_definition_persistence.rs`.
 A byte string is a `string` whose characters are the byte values.
 */
module DigestFraming {
  import opened Wrappers
  import opened DecimalText
  import opened Sorting

  // ---- `<length>:<bytes>` frames -------------------------------------------------------

  function Frame(x: string): string {
    ToDecimal(|x|) + ":" + x
  }

  function DigitRun(s: string): (n: nat)
    ensures n <= |s| && AllDigits(s[..n])
  {
    if s != "" && IsDigit(s[0]) then
      assert s[..1 + DigitRun(s[1..])] == [s[0]] + s[1..][..DigitRun(s[1..])];
      1 + DigitRun(s[1..])
    else 0
  }

  /** Read one frame: its bytes and what follows it. */
  function ReadFrame(s: string): (r: Option<(string, string)>)
    ensures r.Some? ==> |r.value.1| < |s|
  {
    var k := DigitRun(s);
    if k == 0 || k == |s| || s[k] != ':' then None
    else
      var n := DecimalValue(s[..k]);
      if k + 1 + n > |s| then None else Some((s[k + 1..k + 1 + n], s[k + 1 + n..]))
  }

  lemma {:induction false} DigitRunStopsAt(digits: string, rest: string)
    requires AllDigits(digits) && rest != "" && !IsDigit(rest[0])
    ensures DigitRun(digits + rest) == |digits|
  {
    if digits == "" {
      assert digits + rest == rest;
    } else {
      DigitRunStopsAt(digits[1..], rest);
      assert (digits + rest)[1..] == digits[1..] + rest;
    }
  }

  lemma ReadFrameInvertsFrame(x: string, rest: string)
    ensures ReadFrame(Frame(x) + rest) == Some((x, rest))
  {
    var digits := ToDecimal(|x|);
    var tail := ":" + x + rest;
    var s := Frame(x) + rest;
    assert s == digits + tail;
    DigitRunStopsAt(digits, tail);
    assert s[..|digits|] == digits;
    PrintedValue(|x|);
    var k := |digits|;
    assert s[k] == tail[0] == ':';
    assert s[k + 1..k + 1 + |x|] == x;
    assert s[k + 1 + |x|..] == rest;
  }

  // ---- The catalog stream ------------------------------------------------------------------

  datatype CatalogRecord = CatalogRecord(path: string, content: string)

  function Encode(records: seq<CatalogRecord>): string {
    if records == [] then ""
    else Frame(records[0].path) + Frame(records[0].content) + Encode(records[1..])
  }

  function Decode(s: string): Option<seq<CatalogRecord>>
    decreases |s|
  {
    if s == "" then Some([])
    else
      var path := ReadFrame(s);
      if path.None? then None
      else
        var content := ReadFrame(path.value.1);
        if content.None? then None
        else
          var rest := Decode(content.value.1);
          if rest.None? then None
          else Some([CatalogRecord(path.value.0, content.value.0)] + rest.value)
  }

  /** Unique decodability: the stream of any records decodes to those records. */
  lemma {:induction false} DecodeInvertsEncode(records: seq<CatalogRecord>)
    ensures Decode(Encode(records)) == Some(records)
  {
    if records != [] {
      var r, rest := records[0], Encode(records[1..]);
      DecodeInvertsEncode(records[1..]);
      assert Encode(records) == Frame(r.path) + (Frame(r.content) + rest);
      ReadFrameInvertsFrame(r.path, Frame(r.content) + rest);
      ReadFrameInvertsFrame(r.content, rest);
      assert records == [r] + records[1..];
    }
  }

  /** A top-level entry of one of the authored directories. */
  datatype CatalogPath = CatalogPath(directory: string, name: string)

  const CATALOG_DIRECTORIES: set<string> := {"apps", "recipes", "device_profiles", "device_plans"}

  predicate EndsWith(s: string, suffix: string) {
    |suffix| <= |s| && s[|s| - |suffix|..] == suffix
  }

  /** `Path::extension` is `yaml` or `yml`: a bare dot file has no extension. */
  predicate IsYaml(name: string) {
    (|name| > 5 && EndsWith(name, ".yaml")) || (|name| > 4 && EndsWith(name, ".yml"))
  }

  /** A name with a stem and one of the two extensions. */
  ghost predicate HasYamlExtension(name: string) {
    exists stem :: stem != "" && (name == stem + ".yaml" || name == stem + ".yml")
  }

  lemma YamlMeans(name: string)
    ensures IsYaml(name) <==> HasYamlExtension(name)
  {
    if |name| > 5 && EndsWith(name, ".yaml") {
      assert name == name[..|name| - 5] + ".yaml";
    }
    if |name| > 4 && EndsWith(name, ".yml") {
      assert name == name[..|name| - 4] + ".yml";
    }
  }

  /** Paths compare component by component. */
  predicate PathLeq(a: CatalogPath, b: CatalogPath) {
    if a.directory == b.directory then TextLeq(a.name, b.name) else TextLeq(a.directory, b.directory)
  }

  function NormalizedText(p: CatalogPath): string {
    var text := p.directory + "/" + p.name;
    seq(|text|, i requires 0 <= i < |text| => if text[i] == '\\' then '/' else text[i])
  }

  function YamlOnly(paths: seq<CatalogPath>): (r: seq<CatalogPath>)
    ensures forall p :: p in r <==> p in paths && IsYaml(p.name)
  {
    if paths == [] then []
    else
      var init, last := paths[..|paths| - 1], paths[|paths| - 1];
      assert paths == init + [last];
      if IsYaml(last.name) then YamlOnly(init) + [last] else YamlOnly(init)
  }

  function RecordsOf(paths: seq<CatalogPath>, disk: map<CatalogPath, string>): (r: seq<CatalogRecord>)
    requires forall p :: p in paths ==> p in disk
    ensures |r| == |paths|
    ensures forall i :: 0 <= i < |r| ==> r[i] == CatalogRecord(NormalizedText(paths[i]), disk[paths[i]])
  {
    seq(|paths|, i requires 0 <= i < |paths| => CatalogRecord(NormalizedText(paths[i]), disk[paths[i]]))
  }

  /** The stream of the files listed in `paths`, in whatever order the directories were read. */
  function CatalogStream(paths: seq<CatalogPath>, disk: map<CatalogPath, string>): string
    requires forall p :: p in paths && IsYaml(p.name) ==> p in disk
  {
    var sorted := Sort(PathLeq, YamlOnly(paths));
    MembersOfMultiset(sorted, YamlOnly(paths));
    Encode(RecordsOf(sorted, disk))
  }

  lemma Regroup(a: string, b: string, c: string, d: string)
    ensures a + (b + c + d) == a + b + c + d
  {
  }

  lemma {:induction false} EncodeAppends(records: seq<CatalogRecord>, last: CatalogRecord)
    ensures Encode(records + [last]) == Encode(records) + Frame(last.path) + Frame(last.content)
  {
    if records == [] {
      assert records + [last] == [last] && [last][1..] == [];
    } else {
      EncodeAppends(records[1..], last);
      assert (records + [last])[1..] == records[1..] + [last];
      var head := Frame(records[0].path) + Frame(records[0].content);
      assert Encode(records + [last]) == head + Encode(records[1..] + [last]);
      Regroup(head, Encode(records[1..]), Frame(last.path), Frame(last.content));
    }
  }

  method CollectCatalogFiles(entries: seq<CatalogPath>) returns (files: seq<CatalogPath>)
    ensures files == YamlOnly(entries)
  {
    files := [];
    for i := 0 to |entries|
      invariant files == YamlOnly(entries[..i])
    {
      assert entries[..i + 1][..i] == entries[..i];
      if IsYaml(entries[i].name) {
        files := files + [entries[i]];
      }
    }
    assert entries[..|entries|] == entries;
  }

  lemma RecordsAppend(paths: seq<CatalogPath>, last: CatalogPath, disk: map<CatalogPath, string>)
    requires (forall p :: p in paths ==> p in disk) && last in disk
    ensures forall p :: p in paths + [last] ==> p in disk
    ensures Encode(RecordsOf(paths + [last], disk))
            == Encode(RecordsOf(paths, disk)) + Frame(NormalizedText(last)) + Frame(disk[last])
  {
    var record := CatalogRecord(NormalizedText(last), disk[last]);
    assert RecordsOf(paths + [last], disk) == RecordsOf(paths, disk) + [record];
    EncodeAppends(RecordsOf(paths, disk), record);
  }

  /** Feed the hasher file by file; a file that vanished since it was listed is an error. */
  method FeedCatalogFiles(files: seq<CatalogPath>, disk: map<CatalogPath, string>)
    returns (r: Result<string, string>)
    ensures r.Ok? <==> forall p :: p in files ==> p in disk
    ensures r.Ok? ==> r.value == Encode(RecordsOf(files, disk))
    ensures r.Err? ==> r.error == "catalog_integrity_failed"
  {
    var stream := "";
    for i := 0 to |files|
      invariant forall p :: p in files[..i] ==> p in disk
      invariant stream == Encode(RecordsOf(files[..i], disk))
    {
      var path := files[i];
      if path !in disk {
        return Err("catalog_integrity_failed");
      }
      assert files[..i + 1] == files[..i] + [path];
      RecordsAppend(files[..i], path, disk);
      stream := stream + Frame(NormalizedText(path));
      stream := stream + Frame(disk[path]);
    }
    assert files[..|files|] == files;
    r := Ok(stream);
  }

  /** Collect the YAML files, sort them, feed them. */
  method ComputeCatalogStream(entries: seq<CatalogPath>, disk: map<CatalogPath, string>)
    returns (r: Result<string, string>)
    ensures r.Ok? <==> forall p :: p in entries && IsYaml(p.name) ==> p in disk
    ensures r.Ok? ==> r.value == CatalogStream(entries, disk)
    ensures r.Err? ==> r.error == "catalog_integrity_failed"
  {
    var collected := CollectCatalogFiles(entries);
    var files := Sort(PathLeq, collected);
    MembersOfMultiset(files, collected);
    r := FeedCatalogFiles(files, disk);
  }

  // ---- The stream determines the catalog, and the catalog the stream ---------------------

  /** One listing of a disk: every file once, in the four authored directories, each name a single component. */
  ghost predicate IsListing(paths: seq<CatalogPath>, disk: map<CatalogPath, string>) {
    && (forall p :: p in paths <==> p in disk)
    && (forall i, j :: 0 <= i < j < |paths| ==> paths[i] != paths[j])
    && (forall p :: p in disk ==> p.directory in CATALOG_DIRECTORIES && '/' !in p.name)
  }

  function YamlFiles(disk: map<CatalogPath, string>): map<CatalogPath, string> {
    map p | p in disk && IsYaml(p.name) :: disk[p]
  }

  lemma PathOrderIsTotal()
    ensures TotalOrder(PathLeq)
  {
    forall a, b ensures PathLeq(a, b) || PathLeq(b, a) {
      TextTotal(a.name, b.name);
      TextTotal(a.directory, b.directory);
    }
    forall a, b | PathLeq(a, b) && PathLeq(b, a) ensures a == b {
      TextTotal(a.name, b.name);
      TextTotal(a.directory, b.directory);
    }
    forall a, b, c {:trigger Chain(a, b, c)} | PathLeq(a, b) && PathLeq(b, c) ensures PathLeq(a, c) {
      PathLeqTransitive(a, b, c);
    }
  }

  lemma PathLeqTransitive(a: CatalogPath, b: CatalogPath, c: CatalogPath)
    requires PathLeq(a, b) && PathLeq(b, c)
    ensures PathLeq(a, c)
  {
    if a.directory == b.directory == c.directory {
      TextTransitive(a.name, b.name, c.name);
    } else if a.directory != b.directory && b.directory != c.directory {
      TextTransitive(a.directory, b.directory, c.directory);
      TextTotal(a.directory, b.directory);
    }
  }

  lemma {:induction false} CountOfDistinct(s: seq<CatalogPath>, p: CatalogPath)
    requires forall i, j :: 0 <= i < j < |s| ==> s[i] != s[j]
    ensures multiset(s)[p] == if p in s then 1 else 0
  {
    if s != [] {
      assert s == [s[0]] + s[1..];
      CountOfDistinct(s[1..], p);
    }
  }

  lemma {:induction false} YamlOnlyStaysDistinct(s: seq<CatalogPath>)
    requires forall i, j :: 0 <= i < j < |s| ==> s[i] != s[j]
    ensures var r := YamlOnly(s); forall i, j :: 0 <= i < j < |r| ==> r[i] != r[j]
  {
    if s != [] {
      var init, last := s[..|s| - 1], s[|s| - 1];
      YamlOnlyStaysDistinct(init);
      forall p | p in init ensures p != last {
        var i :| 0 <= i < |init| && init[i] == p;
      }
      assert last !in YamlOnly(init);
    }
  }

  lemma DistinctWithSameMembers(s: seq<CatalogPath>, t: seq<CatalogPath>)
    requires forall i, j :: 0 <= i < j < |s| ==> s[i] != s[j]
    requires forall i, j :: 0 <= i < j < |t| ==> t[i] != t[j]
    requires forall p :: p in s <==> p in t
    ensures multiset(s) == multiset(t)
  {
    forall p ensures multiset(s)[p] == multiset(t)[p] {
      CountOfDistinct(s, p);
      CountOfDistinct(t, p);
    }
  }

  lemma SortIgnoresOrder(s: seq<CatalogPath>, t: seq<CatalogPath>)
    requires multiset(s) == multiset(t)
    ensures Sort(PathLeq, s) == Sort(PathLeq, t)
  {
    PathOrderIsTotal();
    SortSorts(PathLeq, s);
    SortSorts(PathLeq, t);
    SortedIsUnique(PathLeq, Sort(PathLeq, s), Sort(PathLeq, t));
  }

  /** The sorted file list depends only on which YAML files there are, not on the order they were read in. */
  lemma SortedListingIsUnique(
      a: seq<CatalogPath>, b: seq<CatalogPath>, diskA: map<CatalogPath, string>, diskB: map<CatalogPath, string>)
    requires IsListing(a, diskA) && IsListing(b, diskB) && YamlFiles(diskA).Keys == YamlFiles(diskB).Keys
    ensures Sort(PathLeq, YamlOnly(a)) == Sort(PathLeq, YamlOnly(b))
  {
    YamlOnlyStaysDistinct(a);
    YamlOnlyStaysDistinct(b);
    forall p ensures p in YamlOnly(a) <==> p in YamlOnly(b) {
      assert p in YamlOnly(a) <==> p in YamlFiles(diskA).Keys;
      assert p in YamlOnly(b) <==> p in YamlFiles(diskB).Keys;
    }
    DistinctWithSameMembers(YamlOnly(a), YamlOnly(b));
    SortIgnoresOrder(YamlOnly(a), YamlOnly(b));
  }

  ghost predicate PlainDirectory(directory: string) {
    '/' !in directory && '\\' !in directory
  }

  lemma AuthoredDirectoriesArePlain(directory: string)
    requires directory in CATALOG_DIRECTORIES
    ensures PlainDirectory(directory)
  {
  }

  /** Where the directory ends in the normalized text, and what its characters are. */
  lemma NormalizedLayout(p: CatalogPath)
    requires PlainDirectory(p.directory)
    ensures var text := NormalizedText(p);
            && |text| == |p.directory| + 1 + |p.name|
            && text[..|p.directory|] == p.directory
            && text[|p.directory|] == '/'
            && forall i :: 0 <= i < |p.name| ==>
                 text[|p.directory| + 1 + i] == if p.name[i] == '\\' then '/' else p.name[i]
  {
    var raw := p.directory + "/" + p.name;
    forall i | 0 <= i < |p.directory| ensures NormalizedText(p)[i] == p.directory[i] {
      assert raw[i] == p.directory[i] && p.directory[i] in p.directory;
    }
    forall i | 0 <= i < |p.name|
      ensures NormalizedText(p)[|p.directory| + 1 + i] == if p.name[i] == '\\' then '/' else p.name[i]
    {
      assert raw[|p.directory| + 1 + i] == p.name[i];
    }
  }

  lemma NoSlashInDirectory(p: CatalogPath, i: nat)
    requires PlainDirectory(p.directory) && i < |p.directory|
    ensures i < |NormalizedText(p)| && NormalizedText(p)[i] != '/'
  {
    assert p.directory[i] in p.directory;
    assert (p.directory + "/" + p.name)[i] == p.directory[i];
  }

  lemma FirstSlashIsTheSame(p: CatalogPath, q: CatalogPath)
    requires PlainDirectory(p.directory) && PlainDirectory(q.directory) && NormalizedText(p) == NormalizedText(q)
    ensures |p.directory| >= |q.directory|
  {
    NormalizedLayout(p);
    if |p.directory| < |q.directory| {
      NoSlashInDirectory(q, |p.directory|);
    }
  }

  /** Normalizing separators loses nothing: a stored file name never holds a slash. */
  lemma NormalizationIsInjective(p: CatalogPath, q: CatalogPath)
    requires PlainDirectory(p.directory) && PlainDirectory(q.directory) && '/' !in p.name && '/' !in q.name
    requires NormalizedText(p) == NormalizedText(q)
    ensures p == q
  {
    FirstSlashIsTheSame(p, q);
    FirstSlashIsTheSame(q, p);
    NormalizedLayout(p);
    NormalizedLayout(q);
    assert p.directory == q.directory;
    forall i | 0 <= i < |p.name| ensures p.name[i] == q.name[i] {
      assert p.name[i] in p.name && q.name[i] in q.name;
      assert NormalizedText(p)[|p.directory| + 1 + i] == NormalizedText(q)[|q.directory| + 1 + i];
    }
  }

  lemma SameRecordsSamePaths(
      a: seq<CatalogPath>, b: seq<CatalogPath>, diskA: map<CatalogPath, string>, diskB: map<CatalogPath, string>)
    requires forall p :: p in a ==> p in diskA && PlainDirectory(p.directory) && '/' !in p.name
    requires forall p :: p in b ==> p in diskB && PlainDirectory(p.directory) && '/' !in p.name
    requires RecordsOf(a, diskA) == RecordsOf(b, diskB)
    ensures a == b && forall p :: p in a ==> diskA[p] == diskB[p]
  {
    assert |a| == |RecordsOf(a, diskA)| == |RecordsOf(b, diskB)| == |b|;
    forall i | 0 <= i < |a| ensures a[i] == b[i] && diskA[a[i]] == diskB[b[i]] {
      assert RecordsOf(a, diskA)[i] == RecordsOf(b, diskB)[i];
      assert a[i] in a && b[i] in b;
      NormalizationIsInjective(a[i], b[i]);
    }
  }

  lemma SameFilesSameStream(
      a: seq<CatalogPath>, b: seq<CatalogPath>, diskA: map<CatalogPath, string>, diskB: map<CatalogPath, string>)
    requires IsListing(a, diskA) && IsListing(b, diskB) && YamlFiles(diskA) == YamlFiles(diskB)
    ensures CatalogStream(a, diskA) == CatalogStream(b, diskB)
  {
    SortedListingIsUnique(a, b, diskA, diskB);
    var files := Sort(PathLeq, YamlOnly(a));
    MembersOfMultiset(files, YamlOnly(a));
    MembersOfMultiset(files, YamlOnly(b));
    forall i | 0 <= i < |files| ensures diskA[files[i]] == diskB[files[i]] {
      assert files[i] in files;
      assert YamlFiles(diskA)[files[i]] == YamlFiles(diskB)[files[i]];
    }
    assert RecordsOf(files, diskA) == RecordsOf(files, diskB);
  }

  /** The files a listing contributes, in sorted order, with the facts the comparison needs. */
  lemma SortedFilesAreYamlFiles(paths: seq<CatalogPath>, disk: map<CatalogPath, string>)
    requires IsListing(paths, disk)
    ensures forall p :: p in Sort(PathLeq, YamlOnly(paths)) <==> p in YamlFiles(disk)
    ensures forall p :: p in Sort(PathLeq, YamlOnly(paths)) ==> PlainDirectory(p.directory) && '/' !in p.name
  {
    var sorted := Sort(PathLeq, YamlOnly(paths));
    MembersOfMultiset(sorted, YamlOnly(paths));
    forall p | p in sorted ensures PlainDirectory(p.directory) {
      AuthoredDirectoriesArePlain(p.directory);
    }
  }

  lemma EncodeIsInjective(a: seq<CatalogRecord>, b: seq<CatalogRecord>)
    requires Encode(a) == Encode(b)
    ensures a == b
  {
    DecodeInvertsEncode(a);
    DecodeInvertsEncode(b);
  }

  lemma SameContentsSameMap(files: seq<CatalogPath>, diskA: map<CatalogPath, string>, diskB: map<CatalogPath, string>)
    requires forall p :: p in files <==> p in YamlFiles(diskA)
    requires forall p :: p in files <==> p in YamlFiles(diskB)
    requires forall p :: p in files ==> diskA[p] == diskB[p]
    ensures YamlFiles(diskA) == YamlFiles(diskB)
  {
    var a, b := YamlFiles(diskA), YamlFiles(diskB);
    assert a.Keys == b.Keys;
    forall p | p in a ensures a[p] == b[p] {
      assert p in files;
    }
  }

  lemma SameStreamSameFiles(
      a: seq<CatalogPath>, b: seq<CatalogPath>, diskA: map<CatalogPath, string>, diskB: map<CatalogPath, string>)
    requires IsListing(a, diskA) && IsListing(b, diskB) && CatalogStream(a, diskA) == CatalogStream(b, diskB)
    ensures YamlFiles(diskA) == YamlFiles(diskB)
  {
    var sa, sb := Sort(PathLeq, YamlOnly(a)), Sort(PathLeq, YamlOnly(b));
    SortedFilesAreYamlFiles(a, diskA);
    SortedFilesAreYamlFiles(b, diskB);
    EncodeIsInjective(RecordsOf(sa, diskA), RecordsOf(sb, diskB));
    SameRecordsSamePaths(sa, sb, diskA, diskB);
    SameContentsSameMap(sa, diskA, diskB);
  }

  /**
   Two catalogs feed the hasher the same stream if and only if they hold the
   same YAML files with the same contents, whatever order each was read in.
   */
  lemma StreamDeterminesCatalog(
      a: seq<CatalogPath>, b: seq<CatalogPath>, diskA: map<CatalogPath, string>, diskB: map<CatalogPath, string>)
    requires IsListing(a, diskA) && IsListing(b, diskB)
    ensures CatalogStream(a, diskA) == CatalogStream(b, diskB) <==> YamlFiles(diskA) == YamlFiles(diskB)
  {
    if YamlFiles(diskA) == YamlFiles(diskB) {
      SameFilesSameStream(a, b, diskA, diskB);
    } else if CatalogStream(a, diskA) == CatalogStream(b, diskB) {
      SameStreamSameFiles(a, b, diskA, diskB);
    }
  }

  // ---- The generated-pair request digest: eight little-endian length bytes per field -------

  function Power256(k: nat): (p: nat)
    ensures p >= 1
  {
    if k == 0 then 1 else 256 * Power256(k - 1)
  }

  function LittleEndian(n: nat, k: nat): (s: string)
    ensures |s| == k
  {
    if k == 0 then "" else [(n % 256) as char] + LittleEndian(n / 256, k - 1)
  }

  function LittleEndianValue(s: string): nat {
    if s == "" then 0 else s[0] as int + 256 * LittleEndianValue(s[1..])
  }

  lemma {:induction false} LittleEndianInverts(n: nat, k: nat)
    requires n < Power256(k)
    ensures LittleEndianValue(LittleEndian(n, k)) == n
  {
    if k > 0 {
      assert n / 256 < Power256(k - 1);
      LittleEndianInverts(n / 256, k - 1);
      var s := LittleEndian(n, k);
      assert s[1..] == LittleEndian(n / 256, k - 1);
    }
  }

  const LENGTH_BYTES: nat := 8

  function DigestInput(fields: seq<string>): string {
    if fields == [] then ""
    else LittleEndian(|fields[0]|, LENGTH_BYTES) + fields[0] + DigestInput(fields[1..])
  }

  method FeedDigest(fields: seq<string>) returns (stream: string)
    ensures stream == DigestInput(fields)
  {
    stream := "";
    for i := 0 to |fields|
      invariant stream + DigestInput(fields[i..]) == DigestInput(fields)
    {
      assert fields[i..][1..] == fields[i + 1..];
      Regroup(stream, LittleEndian(|fields[i]|, LENGTH_BYTES), fields[i], DigestInput(fields[i + 1..]));
      stream := stream + LittleEndian(|fields[i]|, LENGTH_BYTES);
      stream := stream + fields[i];
    }
  }

  function DecodeDigestInput(s: string): Option<seq<string>>
    decreases |s|
  {
    if s == "" then Some([])
    else if |s| < LENGTH_BYTES then None
    else
      var n := LittleEndianValue(s[..LENGTH_BYTES]);
      if LENGTH_BYTES + n > |s| then None
      else
        var rest := DecodeDigestInput(s[LENGTH_BYTES + n..]);
        if rest.None? then None else Some([s[LENGTH_BYTES..LENGTH_BYTES + n]] + rest.value)
  }

  ghost predicate Encodable(fields: seq<string>) {
    forall f :: f in fields ==> |f| < Power256(LENGTH_BYTES)
  }

  lemma {:induction false} DecodeInvertsDigestInput(fields: seq<string>)
    requires Encodable(fields)
    ensures DecodeDigestInput(DigestInput(fields)) == Some(fields)
  {
    if fields != [] {
      var f, rest := fields[0], DigestInput(fields[1..]);
      DecodeInvertsDigestInput(fields[1..]);
      var length := LittleEndian(|f|, LENGTH_BYTES);
      var s := DigestInput(fields);
      assert s == length + f + rest;
      LittleEndianInverts(|f|, LENGTH_BYTES);
      assert s[..LENGTH_BYTES] == length;
      assert s[LENGTH_BYTES..LENGTH_BYTES + |f|] == f;
      assert s[LENGTH_BYTES + |f|..] == rest;
      assert fields == [f] + fields[1..];
    }
  }

  /** Equal digest inputs come from equal fields: no bytes can move between neighbouring fields. */
  lemma DigestInputIsInjective(a: seq<string>, b: seq<string>)
    requires Encodable(a) && Encodable(b) && DigestInput(a) == DigestInput(b)
    ensures a == b
  {
    DecodeInvertsDigestInput(a);
    DecodeInvertsDigestInput(b);
  }

  // ---- The streams, byte for byte ----------------------------------------------------------

  /** A length in decimal, without superfluous zeros. */
  ghost predicate IsLengthText(digits: string, n: nat) {
    WritesDecimal(digits, n) && (digits[0] == '0' ==> digits == "0")
  }

  /** A frame is such a length, a colon, and the bytes. */
  lemma FrameMeans(x: string)
    ensures IsLengthText(ToDecimal(|x|), |x|) && Frame(x) == ToDecimal(|x|) + ":" + x
  {
    PrintedTextWrites(|x|);
  }

  lemma LengthTextIsUnique(digits: string, n: nat)
    requires IsLengthText(digits, n)
    ensures digits == ToDecimal(n)
  {
    DecimalReads(digits, n);
    CanonicalTextIsPrinted(digits);
  }

  /** The eight bytes before each field are its length, least significant first. */
  lemma DigestLayout(fields: seq<string>)
    requires fields != [] && Encodable(fields)
    ensures var stream, f := DigestInput(fields), fields[0];
            && |stream| >= 8 + |f| && (forall i :: 0 <= i < 8 ==> stream[i] as int < 256)
            && |f| == stream[0] as int + 256 * (stream[1] as int + 256 * (stream[2] as int + 256 * (stream[3] as int
                        + 256 * (stream[4] as int + 256 * (stream[5] as int + 256 * (stream[6] as int
                        + 256 * (stream[7] as int)))))))
            && stream[8..8 + |f|] == f && stream[8 + |f|..] == DigestInput(fields[1..])
  {
    var prefix, f, rest := LittleEndian(|fields[0]|, 8), fields[0], DigestInput(fields[1..]);
    assert f in fields;
    assert DigestInput(fields) == prefix + f + rest;
    LittleEndianInverts(|f|, 8);
    LittleEndianIsBytes(|f|, 8);
    EightBytes(prefix);
  }

  lemma {:induction false} LittleEndianIsBytes(n: nat, k: nat)
    ensures forall i :: 0 <= i < k ==> LittleEndian(n, k)[i] as int < 256
  {
    if k > 0 {
      LittleEndianIsBytes(n / 256, k - 1);
      assert LittleEndian(n, k) == [(n % 256) as char] + LittleEndian(n / 256, k - 1);
    }
  }

  lemma EightBytes(s: string)
    requires |s| == 8
    ensures LittleEndianValue(s) ==
            s[0] as int + 256 * (s[1] as int + 256 * (s[2] as int + 256 * (s[3] as int
              + 256 * (s[4] as int + 256 * (s[5] as int + 256 * (s[6] as int + 256 * (s[7] as int)))))))
  {
    FourBytes(s[4..]);
    assert s[1..][1..] == s[2..] && s[2..][1..] == s[3..] && s[3..][1..] == s[4..];
    assert LittleEndianValue(s) == s[0] as int + 256 * LittleEndianValue(s[1..]);
    assert LittleEndianValue(s[1..]) == s[1] as int + 256 * LittleEndianValue(s[2..]);
    assert LittleEndianValue(s[2..]) == s[2] as int + 256 * LittleEndianValue(s[3..]);
    assert LittleEndianValue(s[3..]) == s[3] as int + 256 * LittleEndianValue(s[4..]);
  }

  lemma FourBytes(s: string)
    requires |s| == 4
    ensures LittleEndianValue(s) ==
            s[0] as int + 256 * (s[1] as int + 256 * (s[2] as int + 256 * (s[3] as int)))
  {
    assert s[1..][1..] == s[2..] && s[2..][1..] == s[3..] && s[3..][1..] == "";
    assert LittleEndianValue(s[1..]) == s[1] as int + 256 * LittleEndianValue(s[2..]);
    assert LittleEndianValue(s[2..]) == s[2] as int + 256 * LittleEndianValue(s[3..]);
    assert LittleEndianValue(s[3..]) == s[3] as int;
  }

  /** Eight bytes reach to 2^64. */
  lemma EightBytesSuffice(fields: seq<string>)
    ensures Encodable(fields) <==> forall f :: f in fields ==> |f| < 0x1_0000_0000_0000_0000
  {
    assert Power256(1) == 256 * Power256(0);
    assert Power256(2) == 256 * Power256(1);
    assert Power256(3) == 256 * Power256(2);
    assert Power256(4) == 256 * Power256(3);
    assert Power256(5) == 256 * Power256(4);
    assert Power256(6) == 256 * Power256(5);
    assert Power256(7) == 256 * Power256(6);
    assert Power256(8) == 256 * Power256(7);
  }

  /** In the stream's order: by directory, then by name. */
  ghost predicate ComesBefore(p: CatalogPath, q: CatalogPath) {
    TextBefore(p.directory, q.directory) || (p.directory == q.directory && TextBefore(p.name, q.name))
  }

  lemma PathOrderMeans(p: CatalogPath, q: CatalogPath)
    ensures PathLeq(p, q) <==> p == q || ComesBefore(p, q)
  {
    TextOrderMeans(p.directory, q.directory);
    TextOrderMeans(p.name, q.name);
    assert TextLeq(p.name, p.name) by { TextTotal(p.name, p.name); }
  }

  /** Directory and name with a slash between them, every backslash turned into a slash. */
  ghost predicate IsPathText(p: CatalogPath, text: string) {
    && |text| == |p.directory| + 1 + |p.name|
    && forall i :: 0 <= i < |text| ==>
         var c := if i < |p.directory| then p.directory[i]
                  else if i == |p.directory| then '/' else p.name[i - |p.directory| - 1];
         text[i] == if c == '\\' then '/' else c
  }

  lemma PathTextIs(p: CatalogPath)
    ensures IsPathText(p, NormalizedText(p))
  {
    var raw := p.directory + "/" + p.name;
    forall i | 0 <= i < |raw|
      ensures raw[i] == if i < |p.directory| then p.directory[i]
                        else if i == |p.directory| then '/' else p.name[i - |p.directory| - 1]
    {
    }
  }

  /** The stream of some files: for each the length and text of its path, then the length and bytes of its content. */
  ghost predicate IsStreamOf(stream: string, paths: seq<CatalogPath>, disk: map<CatalogPath, string>)
    requires forall p :: p in paths ==> p in disk
    decreases |paths|
  {
    if paths == [] then stream == ""
    else
      exists text, digits, sizes, rest :: StartsWithFile(stream, paths[0], disk[paths[0]], text, digits, sizes, rest)
        && IsStreamOf(rest, paths[1..], disk)
  }

  ghost predicate StartsWithFile(
      stream: string, p: CatalogPath, content: string, text: string, digits: string, sizes: string, rest: string)
  {
    && IsPathText(p, text) && IsLengthText(digits, |text|) && IsLengthText(sizes, |content|)
    && stream == digits + ":" + text + sizes + ":" + content + rest
  }

  lemma {:induction false} RecordsStream(paths: seq<CatalogPath>, disk: map<CatalogPath, string>)
    requires forall p :: p in paths ==> p in disk
    ensures IsStreamOf(Encode(RecordsOf(paths, disk)), paths, disk)
  {
    if paths != [] {
      var p := paths[0];
      assert forall q :: q in paths[1..] ==> q in paths;
      RecordsStream(paths[1..], disk);
      PathTextIs(p);
      var records, text, content := RecordsOf(paths, disk), NormalizedText(p), disk[p];
      assert records[1..] == RecordsOf(paths[1..], disk);
      var rest, digits, sizes := Encode(records[1..]), ToDecimal(|text|), ToDecimal(|content|);
      FrameMeans(text);
      FrameMeans(content);
      FramesJoin(digits, text, sizes, content, rest);
      assert StartsWithFile(Encode(records), p, content, text, digits, sizes, rest);
    }
  }

  lemma FramesJoin(digits: string, text: string, sizes: string, content: string, rest: string)
    ensures (digits + ":" + text) + (sizes + ":" + content) + rest
            == digits + ":" + text + sizes + ":" + content + rest
  {
    assert (digits + ":" + text) + (sizes + ":" + content) == digits + ":" + text + sizes + ":" + content;
  }

  /** Which bytes are hashed: the YAML files of the listing, each once for each time it is listed, in path order. */
  lemma CatalogStreamMeans(entries: seq<CatalogPath>, disk: map<CatalogPath, string>) returns (paths: seq<CatalogPath>)
    requires forall p :: p in entries && IsYaml(p.name) ==> p in disk
    ensures forall p :: multiset(paths)[p] == if HasYamlExtension(p.name) then multiset(entries)[p] else 0
    ensures forall i, j :: 0 <= i < j < |paths| ==> paths[i] == paths[j] || ComesBefore(paths[i], paths[j])
    ensures forall p :: p in paths ==> p in disk
    ensures IsStreamOf(CatalogStream(entries, disk), paths, disk)
  {
    paths := Sort(PathLeq, YamlOnly(entries));
    MembersOfMultiset(paths, YamlOnly(entries));
    YamlCounts(entries);
    PathOrderIsTotal();
    SortSorts(PathLeq, YamlOnly(entries));
    forall i, j | 0 <= i < j < |paths| ensures paths[i] == paths[j] || ComesBefore(paths[i], paths[j]) {
      PathOrderMeans(paths[i], paths[j]);
    }
    RecordsStream(paths, disk);
  }

  lemma {:induction false} YamlCounts(entries: seq<CatalogPath>)
    ensures forall p :: multiset(YamlOnly(entries))[p] == if HasYamlExtension(p.name) then multiset(entries)[p] else 0
  {
    if entries != [] {
      var init, last := entries[..|entries| - 1], entries[|entries| - 1];
      assert entries == init + [last];
      YamlCounts(init);
      YamlMeans(last.name);
    }
  }

  lemma AuthoredDirectoriesAre(directory: string)
    ensures directory in CATALOG_DIRECTORIES <==>
            || directory == "apps" || directory == "recipes" || directory == "device_profiles"
            || directory == "device_plans"
  {
  }
}
