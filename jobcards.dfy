/**
 * The technician's side of `backend/routes/jobcards.py`: the duration rule,
 * the stored names of the signature and the photos, the submission itself,
 * the deferred render-then-email step and the tenant-scoped PDF download.
 *
 * Base64 decoding, the image library's verdict on an upload, the fresh
 * `uuid4().hex` names, the PDF renderer and the clock enter as parameters.
 */
module JobCards {
  import opened Common
  import opened Decimal
  import opened Claims
  import opened JobNumber
  import opened Models
  import opened Admin

  /** Where the volume holding every upload is mounted. */
  const UploadDir := "/data/uploads"

  // ---------------------------------------------------------------------
  // calculate_hours
  // ---------------------------------------------------------------------

  /** `h, m = map(int, t.split(":"))`: exactly two fields, each an integer, or `ValueError`. */
  function ParseClock(t: string): (r: Result<(int, int)>)
    ensures |Split(t, ':')| != 2 ==> r == Err(Crash("ValueError"))
    ensures r.Err? ==> r.error == Crash("ValueError")
    ensures r.Ok? ==> |Split(t, ':')| == 2 &&
                      ParseInt(Split(t, ':')[0]) == Some(r.value.0) && ParseInt(Split(t, ':')[1]) == Some(r.value.1)
  {
    var parts := Split(t, ':');
    if |parts| != 2 then Err(Crash("ValueError"))
    else
      match (ParseInt(parts[0]), ParseInt(parts[1]))
      case (Some(h), Some(m)) => Ok((h, m))
      case _ => Err(Crash("ValueError"))
  }

  /** `str(h) + ":" + str(m)` reads back as `(h, m)`. */
  lemma ClockRoundTrip(h: int, m: int)
    ensures ParseClock(IntToString(h) + ":" + IntToString(m)) == Ok((h, m))
  {
    var a, b := IntToString(h), IntToString(m);
    ColonFree(a);
    ColonFree(b);
    SplitTwo(a, ':', b);
    assert a + ":" + b == a + [':'] + b;
  }

  /** What `int` accepts holds no `:`. */
  lemma ColonFree(s: string)
    requires ParseInt(s).Some?
    ensures ':' !in s
  {
    if |s| > 0 && (s[0] == '-' || s[0] == '+') {
      assert AllDigits(s[1..]);
      forall i | 1 <= i < |s| ensures s[i] != ':' { assert s[1..][i - 1] == s[i]; }
    } else {
      assert AllDigits(s);
    }
  }

  /** Two digit strings around a colon parse as their values. */
  lemma ClockOfDigits(a: string, b: string)
    requires |a| > 0 && AllDigits(a) && |b| > 0 && AllDigits(b)
    ensures ParseClock(a + ":" + b) == Ok((Value(a) as int, Value(b) as int))
  {
    ColonFree(a);
    ColonFree(b);
    SplitTwo(a, ':', b);
    assert a + ":" + b == a + [':'] + b;
  }

  /** Minutes from arrival to departure, one day added when the difference is negative. */
  function MinutesBetween(arrival: (int, int), departure: (int, int)): (m: int)
    ensures var d := (departure.0 * 60 + departure.1) - (arrival.0 * 60 + arrival.1);
            m == d || (d < 0 && m == d + 1440)
    ensures m < 0 ==> m + 1440 == (departure.0 * 60 + departure.1) - (arrival.0 * 60 + arrival.1) + 2880
  {
    var d := (departure.0 * 60 + departure.1) - (arrival.0 * 60 + arrival.1);
    if d < 0 then d + 1440 else d
  }

  /** `round(m / 60, 2)` in hundredths of an hour: the nearest hundredth (floor division by 3). */
  function Hundredths(m: int): (r: int)
    ensures -1 <= 3 * r - 5 * m <= 1
  {
    (5 * m + 1) / 3
  }

  /** `m / 60` hours is never half-way between two hundredths, so the nearest one is unique. */
  lemma NearestIsUnique(m: int, r: int, r': int)
    requires -1 <= 3 * r - 5 * m <= 1 && -1 <= 3 * r' - 5 * m <= 1
    ensures r == r'
  {
  }

  /** `calculate_hours`, in hundredths of an hour. */
  function CalculateHours(arrival: string, departure: string): (r: Result<int>)
    ensures r.Err? <==> ParseClock(arrival).Err? || ParseClock(departure).Err?
    ensures r.Err? ==> r.error == Crash("ValueError")
    ensures r.Ok? ==> -1 <= 3 * r.value - 5 * MinutesBetween(ParseClock(arrival).value, ParseClock(departure).value) <= 1
  {
    match (ParseClock(arrival), ParseClock(departure))
    case (Ok(a), Ok(d)) => Ok(Hundredths(MinutesBetween(a, d)))
    case (Err(e), _) => Err(e)
    case (_, Err(e)) => Err(e)
  }

  /** A five-character `hh:mm` of digits parses as its two numbers. */
  lemma ClockOfChars(h1: char, h2: char, m1: char, m2: char)
    requires IsDigit(h1) && IsDigit(h2) && IsDigit(m1) && IsDigit(m2)
    ensures ParseClock([h1, h2, ':', m1, m2]) ==
              Ok(((10 * DigitValue(h1) + DigitValue(h2)) as int, (10 * DigitValue(m1) + DigitValue(m2)) as int))
  {
    var a, b := [h1, h2], [m1, m2];
    ClockOfDigits(a, b);
    assert a + ":" + b == [h1, h2, ':', m1, m2];
    TwoDigitValue(h1, h2);
    TwoDigitValue(m1, m2);
  }

  /** The value of a two-digit string. */
  lemma TwoDigitValue(c1: char, c2: char)
    requires IsDigit(c1) && IsDigit(c2)
    ensures Value([c1, c2]) == 10 * DigitValue(c1) + DigitValue(c2)
  {
    var s := [c1, c2];
    assert s[1..] == [c2];
    assert [c2][1..] == [];
    assert Value([c2]) == DigitValue(c2) * Pow10(0) + Value([]);
    assert Pow10(1) == 10 * Pow10(0);
  }

  /** Equal times give 0, not 24 hours. */
  lemma HoursOfEqualTimes()
    ensures CalculateHours("10:00", "10:00") == Ok(0)
  {
    ClockOfChars('1', '0', '0', '0');
  }

  /** A span past midnight wraps: 23:30 to 00:15 is 0.75 hours. */
  lemma HoursPastMidnight()
    ensures CalculateHours("23:30", "00:15") == Ok(75)
  {
    ClockOfChars('2', '3', '3', '0');
    ClockOfChars('0', '0', '1', '5');
  }

  /** The fields are never range-checked: 00:00 to 30:00 gives 30 hours. */
  lemma HoursBeyondADay()
    ensures CalculateHours("00:00", "30:00") == Ok(3000)
  {
    ClockOfChars('0', '0', '0', '0');
    ClockOfChars('3', '0', '0', '0');
  }

  /** One added day does not always make the span positive: 48:00 to 00:00 gives -24 hours. */
  lemma HoursBelowZero()
    ensures CalculateHours("48:00", "00:00") == Ok(-2400)
  {
    ClockOfChars('4', '8', '0', '0');
    ClockOfChars('0', '0', '0', '0');
  }

  /** A time of day: hours 0 to 23, minutes 0 to 59. */
  predicate InDay(t: (int, int)) {
    0 <= t.0 <= 23 && 0 <= t.1 <= 59
  }

  /** For clock times of one day the result lies in [0, 24) hours. */
  lemma HoursWithinADay(arrival: string, departure: string)
    requires ParseClock(arrival).Ok? && InDay(ParseClock(arrival).value)
    requires ParseClock(departure).Ok? && InDay(ParseClock(departure).value)
    ensures CalculateHours(arrival, departure).Ok?
    ensures 0 <= CalculateHours(arrival, departure).value < 2400
  {
  }

  // ---------------------------------------------------------------------
  // Stored file names
  // ---------------------------------------------------------------------

  /** `os.path.join(UPLOAD_DIR, subfolder, filename)` */
  function DiskPath(subfolder: string, filename: string): string {
    PosixJoin(PosixJoin(UploadDir, subfolder), filename)
  }

  /** `f"/uploads/{subfolder}/{filename}"`, the path the handlers hand back. */
  function PublicPath(subfolder: string, filename: string): string {
    "/uploads/" + subfolder + "/" + filename
  }

  /** A file is stored at its public path under the `/data` mount. */
  lemma StoredUnderPublicPath(subfolder: string, filename: string)
    requires subfolder != "" && subfolder[0] != '/' && subfolder[|subfolder| - 1] != '/'
    requires filename != "" && filename[0] != '/'
    ensures DiskPath(subfolder, filename) == "/data" + PublicPath(subfolder, filename)
  {
    assert !StartsWith(subfolder, "/") && !StartsWith(filename, "/");
    var folder := PosixJoin(UploadDir, subfolder);
    assert folder == UploadDir + "/" + subfolder;
    assert folder[|folder| - 1] == subfolder[|subfolder| - 1];
  }

  /** The text after the first comma of a data URL, or all of it when it has none. */
  function Base64Part(url: string): (b: string)
    ensures |b| <= |url| && b == url[|url| - |b|..]
    ensures ',' !in url ==> b == url
  {
    var k := IndexOf(url, ',');
    if k < |url| then url[k + 1..] else url
  }

  /** A header without a comma is dropped, and the payload is kept whole, commas and all. */
  lemma Base64PartOfDataUrl(header: string, payload: string)
    requires ',' !in header
    ensures Base64Part(header + "," + payload) == payload
  {
    var url := header + "," + payload;
    assert url[|header|] == ',';
    assert forall i :: 0 <= i < |header| ==> url[i] == header[i];
    assert url[|header| + 1..] == payload;
  }

  /** Where a decoded signature is written, and the path stored in `signature_path`. */
  function SignatureDiskPath(hex: Hex32): string { DiskPath("signatures", hex + ".png") }
  function SignaturePath(hex: Hex32): string { PublicPath("signatures", hex + ".png") }

  /**
   * `save_base64_image`: a missing or empty data URL stores nothing; otherwise
   * the base64 part is decoded (an undecodable one raises) and written to a
   * fresh `.png` file.
   */
  method SaveBase64Image(disk: Disk, url: Option<string>, decode: string -> Option<seq<byte>>, hex: Hex32)
    returns (r: Result<Option<string>>)
    modifies disk
    ensures !Truthy(url) ==> r == Ok(None) && disk.files == old(disk.files)
    ensures Truthy(url) && decode(Base64Part(url.value)).None? ==>
              r == Err(Crash("binascii.Error")) && disk.files == old(disk.files)
    ensures Truthy(url) && decode(Base64Part(url.value)).Some? ==>
              r == Ok(Some(SignaturePath(hex))) &&
              disk.files == old(disk.files)[SignatureDiskPath(hex) := decode(Base64Part(url.value)).value]
  {
    if !Truthy(url) {
      return Ok(None);
    }
    var data := decode(Base64Part(url.value));
    if data.None? {
      return Err(Crash("binascii.Error"));
    }
    disk.Write(SignatureDiskPath(hex), data.value);
    r := Ok(Some(SignaturePath(hex)));
  }

  /** `os.path.splitext(p)[1]`: from the last dot of the last part, unless only dots precede it there. */
  function SplitExt(p: string): (x: string)
    ensures x != "" ==> x[0] == '.'
  {
    var slash := LastIndexOf(p, '/');
    var dot := LastIndexOf(p, '.');
    if dot > slash && exists i :: slash + 1 <= i < dot && p[i] != '.' then p[dot..] else ""
  }

  /** An extension is a proper tail of the name, holds one dot (its first character) and no `/`. */
  lemma SplitExtShape(p: string)
    ensures var x := SplitExt(p);
            x != "" ==> '.' !in x[1..] && '/' !in x && |x| < |p| && x == p[|p| - |x|..]
  {
    var x := SplitExt(p);
    if x != "" {
      var slash := LastIndexOf(p, '/');
      var dot := LastIndexOf(p, '.');
      assert x == p[dot..];
      forall j | 0 <= j < |x| ensures x[j] == p[dot + j] { }
    }
  }

  /** A plain name keeps its extension; a dot-file and a name without a dot have none; a trailing dot is one. */
  lemma SplitExtExamples()
    ensures SplitExt("photo.JPG") == ".JPG"
    ensures SplitExt(".hidden") == ""
    ensures SplitExt("..") == ""
    ensures SplitExt("notes") == ""
    ensures SplitExt("scan.") == "."
  {
    LastIndexOfAt("photo.JPG", '.', 5);
    LastIndexOfAt("photo.JPG", '/', -1);
    assert "photo.JPG"[0] != '.';
    LastIndexOfAt(".hidden", '.', 0);
    LastIndexOfAt(".hidden", '/', -1);
    LastIndexOfAt("..", '.', 1);
    LastIndexOfAt("..", '/', -1);
    LastIndexOfAt("notes", '.', -1);
    LastIndexOfAt("scan.", '.', 4);
    LastIndexOfAt("scan.", '/', -1);
    assert "scan."[0] != '.';
    assert "scan."[4..] == ".";
    assert "photo.JPG"[5..] == ".JPG";
  }

  /** `compress_image`: a decodable image is re-encoded as PNG when it has alpha and as JPEG otherwise; anything else is kept. */
  function Compress(u: Upload, ext: string): (r: (seq<byte>, string))
    ensures u.decoded.NotAnImage? ==> r == (u.data, ext)
    ensures u.decoded.Image? ==> r.0 == u.decoded.reencoded
  {
    match u.decoded
    case NotAnImage => (u.data, ext)
    case Image(alpha, bytes) => (bytes, if alpha then ".png" else ".jpg")
  }

  /** The extension `save_upload_file` gives to the stored file. */
  function StoredExtension(u: Upload): (e: string)
    ensures u.decoded.Image? && u.decoded.hasAlpha ==> e == ".png"
    ensures u.decoded.Image? && !u.decoded.hasAlpha ==> e == ".jpg"
    ensures u.decoded.NotAnImage? && SplitExt(u.filename) != "" ==> e == SplitExt(u.filename)
    ensures u.decoded.NotAnImage? && SplitExt(u.filename) == "" ==> e == ".bin"
    ensures |e| >= 1 && e[0] == '.'
  {
    var ext := SplitExt(u.filename);
    Compress(u, if ext == "" then ".bin" else ext).1
  }

  /** `save_upload_file`: stores the (possibly re-encoded) bytes under a fresh name and returns the public path. */
  method SaveUploadFile(disk: Disk, u: Upload, subfolder: string, hex: Hex32) returns (path: string)
    modifies disk
    ensures path == PublicPath(subfolder, hex + StoredExtension(u))
    ensures disk.files == old(disk.files)[PhotoFile(subfolder, hex, u) := StoredBytes(u)]
  {
    var ext := SplitExt(u.filename);
    if ext == "" { ext := ".bin"; }
    var compressed := Compress(u, ext);
    var filename := hex + compressed.1;
    disk.Write(DiskPath(subfolder, filename), compressed.0);
    path := PublicPath(subfolder, filename);
  }

  /** The public paths of a photo list, one per upload, in upload order. */
  function PhotoPaths(uploads: seq<Upload>, subfolder: string, names: seq<Hex32>): (r: seq<string>)
    requires |names| == |uploads|
    ensures |r| == |uploads|
  {
    seq(|uploads|, k requires 0 <= k < |uploads| => PublicPath(subfolder, names[k] + StoredExtension(uploads[k])))
  }

  /** Each photo path is `/uploads/<subfolder>/<name>` followed by an extension that starts with a dot. */
  lemma PhotoPathShape(uploads: seq<Upload>, subfolder: string, names: seq<Hex32>, k: nat)
    requires |names| == |uploads| && k < |uploads|
    ensures var p := PhotoPaths(uploads, subfolder, names)[k];
            var head := "/uploads/" + subfolder + "/" + names[k];
            |head| < |p| && p[..|head|] == head && p[|head|] == '.'
  {
    var e := StoredExtension(uploads[k]);
    var head := "/uploads/" + subfolder + "/" + names[k];
    assert PhotoPaths(uploads, subfolder, names)[k] == head + e;
  }

  /** The stored bytes of an upload. */
  function StoredBytes(u: Upload): seq<byte> {
    Compress(u, if SplitExt(u.filename) == "" then ".bin" else SplitExt(u.filename)).0
  }

  /** Where an upload stored under a fresh name lands on the volume. */
  function PhotoFile(subfolder: string, hex: Hex32, u: Upload): string {
    DiskPath(subfolder, hex + StoredExtension(u))
  }

  /** The volume paths of a photo list, one per upload. */
  function PhotoFiles(uploads: seq<Upload>, subfolder: string, names: seq<Hex32>): (r: seq<string>)
    requires |names| == |uploads|
    ensures |r| == |uploads|
  {
    seq(|uploads|, k requires 0 <= k < |uploads| => PhotoFile(subfolder, names[k], uploads[k]))
  }

  /** The bytes each upload of a photo list is stored as. */
  function PhotoBytes(uploads: seq<Upload>): (r: seq<seq<byte>>)
    ensures |r| == |uploads|
  {
    seq(|uploads|, k requires 0 <= k < |uploads| => StoredBytes(uploads[k]))
  }

  /** A store after writing the first `k` values under their keys, one after the other. */
  function WriteFirst<K, V>(m: map<K, V>, keys: seq<K>, vals: seq<V>, k: nat): map<K, V>
    requires |keys| == |vals| && k <= |keys|
  {
    if k == 0 then m else WriteFirst(m, keys, vals, k - 1)[keys[k - 1] := vals[k - 1]]
  }

  /** With distinct keys, every value written is still there at the end. */
  lemma {:induction false} WriteFirstKeeps<K, V>(m: map<K, V>, keys: seq<K>, vals: seq<V>, k: nat, j: nat)
    requires |keys| == |vals| && j < k <= |keys|
    requires forall a, b :: 0 <= a < b < |keys| ==> keys[a] != keys[b]
    ensures keys[j] in WriteFirst(m, keys, vals, k) && WriteFirst(m, keys, vals, k)[keys[j]] == vals[j]
    decreases k
  {
    if j < k - 1 {
      WriteFirstKeeps(m, keys, vals, k - 1, j);
    }
  }

  /** `os.path.join(a, b)` for a relative `b`: `b` after `a` and a separator when `a` needs one. */
  function JoinHead(a: string): string {
    if a == "" || a[|a| - 1] == '/' then a else a + "/"
  }

  lemma JoinRelative(a: string, b: string)
    requires b != "" && b[0] != '/'
    ensures PosixJoin(a, b) == JoinHead(a) + b
  {
    assert b[..1] == [b[0]];
  }

  /** The middle of a concatenation is found at its offset. */
  lemma SliceAfter(a: string, b: string, c: string)
    ensures (a + (b + c))[|a|..|a| + |b|] == b
  {
    assert forall i :: 0 <= i < |b| ==> (a + (b + c))[|a| + i] == b[i];
  }

  /** A fresh name followed by anything is never empty and never starts with `/`. */
  lemma FreshNameHead(h: Hex32, e: string)
    ensures h + e != "" && (h + e)[0] != '/'
  {
    assert (h + e)[0] == h[0];
  }

  /** Different fresh names give different volume paths, whatever the extensions. */
  lemma DistinctNamesDistinctPaths(subfolder: string, h1: Hex32, u1: Upload, h2: Hex32, u2: Upload)
    requires h1 != h2
    ensures PhotoFile(subfolder, h1, u1) != PhotoFile(subfolder, h2, u2)
  {
    var dir := PosixJoin(UploadDir, subfolder);
    var e1, e2 := StoredExtension(u1), StoredExtension(u2);
    FreshNameHead(h1, e1);
    FreshNameHead(h2, e2);
    JoinRelative(dir, h1 + e1);
    JoinRelative(dir, h2 + e2);
    SliceAfter(JoinHead(dir), h1, e1);
    SliceAfter(JoinHead(dir), h2, e2);
  }

  /** Distinct fresh names give distinct files. */
  lemma PhotoFilesDistinct(uploads: seq<Upload>, subfolder: string, names: seq<Hex32>)
    requires |names| == |uploads|
    requires forall a, b :: 0 <= a < b < |names| ==> names[a] != names[b]
    ensures var files := PhotoFiles(uploads, subfolder, names);
            forall a, b :: 0 <= a < b < |files| ==> files[a] != files[b]
  {
    var files := PhotoFiles(uploads, subfolder, names);
    forall a, b | 0 <= a < b < |files| ensures files[a] != files[b] {
      DistinctNamesDistinctPaths(subfolder, names[a], uploads[a], names[b], uploads[b]);
    }
  }

  /** One more upload saved: the paths grow by its public path and the store by its file. */
  lemma SavePhotosStep(m0: map<string, seq<byte>>, m: map<string, seq<byte>>, paths: seq<string>,
                       uploads: seq<Upload>, subfolder: string, names: seq<Hex32>, k: nat)
    requires |names| == |uploads| && k < |uploads|
    requires paths == PhotoPaths(uploads, subfolder, names)[..k]
    requires m == WriteFirst(m0, PhotoFiles(uploads, subfolder, names), PhotoBytes(uploads), k)
    ensures paths + [PublicPath(subfolder, names[k] + StoredExtension(uploads[k]))] ==
            PhotoPaths(uploads, subfolder, names)[..k + 1]
    ensures m[PhotoFile(subfolder, names[k], uploads[k]) := StoredBytes(uploads[k])] ==
            WriteFirst(m0, PhotoFiles(uploads, subfolder, names), PhotoBytes(uploads), k + 1)
  {
    TakeOneMore(PhotoPaths(uploads, subfolder, names), k);
  }

  /** One loop of `create_jobcard`: each upload of a category is saved, in order, under its own fresh name. */
  method SavePhotos(disk: Disk, uploads: seq<Upload>, subfolder: string, names: seq<Hex32>) returns (paths: seq<string>)
    requires |names| == |uploads|
    modifies disk
    ensures paths == PhotoPaths(uploads, subfolder, names)
    ensures disk.files == WriteFirst(old(disk.files), PhotoFiles(uploads, subfolder, names), PhotoBytes(uploads), |uploads|)
  {
    ghost var m0 := disk.files;
    paths := [];
    var k := 0;
    while k < |uploads|
      invariant 0 <= k <= |uploads|
      invariant paths == PhotoPaths(uploads, subfolder, names)[..k]
      invariant disk.files == WriteFirst(m0, PhotoFiles(uploads, subfolder, names), PhotoBytes(uploads), k)
    {
      SavePhotosStep(m0, disk.files, paths, uploads, subfolder, names, k);
      var p := SaveUploadFile(disk, uploads[k], subfolder, names[k]);
      paths := paths + [p];
      k := k + 1;
    }
    assert PhotoPaths(uploads, subfolder, names)[..k] == PhotoPaths(uploads, subfolder, names);
  }

  /** With distinct fresh names, every upload's file holds that upload's bytes once the loop is done. */
  lemma StoredPhotosKept(m: map<string, seq<byte>>, uploads: seq<Upload>, subfolder: string, names: seq<Hex32>, j: nat)
    requires |names| == |uploads| && j < |uploads|
    requires forall a, b :: 0 <= a < b < |names| ==> names[a] != names[b]
    ensures var after := WriteFirst(m, PhotoFiles(uploads, subfolder, names), PhotoBytes(uploads), |uploads|);
            PhotoFile(subfolder, names[j], uploads[j]) in after &&
            after[PhotoFile(subfolder, names[j], uploads[j])] == StoredBytes(uploads[j])
  {
    var files := PhotoFiles(uploads, subfolder, names);
    PhotoFilesDistinct(uploads, subfolder, names);
    WriteFirstKeeps(m, files, PhotoBytes(uploads), |uploads|, j);
    assert files[j] == PhotoFile(subfolder, names[j], uploads[j]);
  }

  // ---------------------------------------------------------------------
  // create_jobcard
  // ---------------------------------------------------------------------

  /** The submitted form; a missing photo list is the empty one. */
  datatype Form = Form(
    clientName: string,
    siteAddress: string,
    contactPerson: string,
    contactNumber: Option<string>,
    technicianName: string,
    arrivalTime: string,
    departureTime: string,
    instructionGivenBy: Option<string>,
    customerEmail: Option<string>,
    jobDescription: string,
    materialsUsed: Option<string>,
    signature: Option<string>,
    beforePhotos: seq<Upload>,
    afterPhotos: seq<Upload>,
    materialPhotos: seq<Upload>)

  /** The fresh names `uuid4` hands out during one submission. */
  datatype FreshNames = FreshNames(signature: Hex32, before: seq<Hex32>, after: seq<Hex32>, materials: seq<Hex32>)

  predicate NamesFit(form: Form, names: FreshNames) {
    |names.before| == |form.beforePhotos| && |names.after| == |form.afterPhotos| &&
    |names.materials| == |form.materialPhotos|
  }

  /** The background task `create_jobcard` schedules: the new card's id and the company's address and name. */
  datatype Deferred = Deferred(jobcardId: nat, companyEmail: Option<string>, companyName: string)

  /** The response body: the allocated job number and the hours (in hundredths). */
  datatype Submitted = Submitted(jobNumber: string, hoursWorked: int)

  /** The row `create_jobcard` builds, before the database gives it an id. */
  function NewCard(form: Form, company: Option<int>, createdBy: Option<int>, hours: int, signature: Option<string>,
                   before: seq<string>, after: seq<string>, materials: seq<string>, jobNumber: string, now: int)
    : (jc: JobCard)
    ensures jc.status == DefaultStatus && jc.jobNumber == jobNumber && jc.hoursWorked == Some(hours)
    ensures jc.companyId == company && jc.createdBy == createdBy && jc.signaturePath == signature
    ensures jc.beforePhotos == ListField(before) && jc.afterPhotos == ListField(after)
    ensures jc.materialPhotos == ListField(materials)
  {
    JobCard(0, jobNumber, None, company, createdBy, form.clientName, form.siteAddress, form.contactPerson,
            form.contactNumber, form.technicianName, Some(form.arrivalTime), Some(form.departureTime), Some(hours),
            form.instructionGivenBy, form.customerEmail, form.jobDescription, form.materialsUsed, ListField(materials),
            signature, ListField(before), ListField(after), DefaultStatus, now)
  }

  function CompanyKey(c: Company): int { c.id }

  /** `db.query(Company).filter(Company.id == company_id).first()`; a `NULL` id matches nothing. */
  function CompanyById(companies: seq<Company>, id: Option<int>): (r: Option<Company>)
    ensures r.Some? ==> id.Some? && r.value in companies && r.value.id == id.value
    ensures r.None? <==> id.None? || forall i :: 0 <= i < |companies| ==> companies[i].id != id.value
  {
    if id.None? then None
    else
      match FirstWhere(companies, CompanyKey, id.value)
      case None => None
      case Some(i) => Some(companies[i])
  }

  /** The arguments the submission hands to the background task. */
  function DeferredFor(cardId: nat, company: Option<Company>): (d: Deferred)
    ensures company.None? ==> d == Deferred(cardId, None, "")
    ensures company.Some? ==> d == Deferred(cardId, company.value.contactEmail, company.value.name)
  {
    match company
    case None => Deferred(cardId, None, "")
    case Some(c) => Deferred(cardId, c.contactEmail, c.name)
  }

  /** The stored paths of a submission's files: the signature's, when there is one, and one per photo. */
  datatype Attachments = Attachments(signature: Option<string>, before: seq<string>, after: seq<string>,
                                     materials: seq<string>)

  /** The paths a submission's files are stored under, given the fresh names. */
  function Planned(form: Form, names: FreshNames): (a: Attachments)
    requires NamesFit(form, names)
    ensures a.signature.Some? <==> Truthy(form.signature)
    ensures |a.before| == |form.beforePhotos| && |a.after| == |form.afterPhotos|
    ensures |a.materials| == |form.materialPhotos|
  {
    Attachments(if Truthy(form.signature) then Some(SignaturePath(names.signature)) else None,
                PhotoPaths(form.beforePhotos, "before", names.before),
                PhotoPaths(form.afterPhotos, "after", names.after),
                PhotoPaths(form.materialPhotos, "materials", names.materials))
  }

  /** The signature is undecodable: the one file failure that stops a submission. */
  predicate BadSignature(form: Form, decode: string -> Option<seq<byte>>) {
    Truthy(form.signature) && decode(Base64Part(form.signature.value)).None?
  }

  /** The store after the signature, when one was sent, is written under its fresh name. */
  function SignatureStored(m: map<string, seq<byte>>, form: Form, decode: string -> Option<seq<byte>>,
                           names: FreshNames): map<string, seq<byte>>
  {
    if Truthy(form.signature) && decode(Base64Part(form.signature.value)).Some?
    then m[SignatureDiskPath(names.signature) := decode(Base64Part(form.signature.value)).value]
    else m
  }

  /** The store after the signature, then the before, after and material photos, are written in that order. */
  function AttachmentsStored(m: map<string, seq<byte>>, form: Form, decode: string -> Option<seq<byte>>,
                             names: FreshNames): map<string, seq<byte>>
    requires NamesFit(form, names)
  {
    var m1 := SignatureStored(m, form, decode, names);
    var m2 := WriteFirst(m1, PhotoFiles(form.beforePhotos, "before", names.before),
                         PhotoBytes(form.beforePhotos), |form.beforePhotos|);
    var m3 := WriteFirst(m2, PhotoFiles(form.afterPhotos, "after", names.after),
                         PhotoBytes(form.afterPhotos), |form.afterPhotos|);
    WriteFirst(m3, PhotoFiles(form.materialPhotos, "materials", names.materials),
               PhotoBytes(form.materialPhotos), |form.materialPhotos|)
  }

  /** Lines 150-161 of the handler: the signature, then the before, after and material photos, in that order. */
  method SaveAttachments(disk: Disk, form: Form, decode: string -> Option<seq<byte>>, names: FreshNames)
    returns (r: Result<Attachments>)
    requires NamesFit(form, names)
    modifies disk
    ensures BadSignature(form, decode) ==> r == Err(Crash("binascii.Error")) && disk.files == old(disk.files)
    ensures !BadSignature(form, decode) ==>
              r == Ok(Planned(form, names)) && disk.files == AttachmentsStored(old(disk.files), form, decode, names)
  {
    var signature := SaveBase64Image(disk, form.signature, decode, names.signature);
    if signature.Err? {
      return Err(signature.error);
    }
    var before := SavePhotos(disk, form.beforePhotos, "before", names.before);
    var after := SavePhotos(disk, form.afterPhotos, "after", names.after);
    var materials := SavePhotos(disk, form.materialPhotos, "materials", names.materials);
    r := Ok(Attachments(signature.value, before, after, materials));
  }

  /** The checks before any file is written pass: the tenant and creator claims and the hours. */
  predicate Admitted(user: Payload, form: Form) {
    CompanyOf(user).Ok? && CallerId(user).Ok? && CalculateHours(form.arrivalTime, form.departureTime).Ok?
  }

  /** Everything the row needs: the claims and the times parse, and the three mandatory columns are present. */
  predicate Storable(user: Payload, form: Form, decode: string -> Option<seq<byte>>) {
    Admitted(user, form) && Truthy(form.signature) && !BadSignature(form, decode) && form.contactNumber.Some? && form.materialsUsed.Some?
  }

  /**
   * `create_jobcard`, in the source's order: the tenant and creator claims,
   * the hours, the files, the job number, the insert, and the company lookup
   * for the background task.
   */
  method CreateJobCard(db: Database, disk: Disk, user: Payload, form: Form, decode: string -> Option<seq<byte>>,
                       names: FreshNames, today: Date, now: int)
    returns (r: Result<(Submitted, Deferred)>)
    requires db.Valid() && NamesFit(form, names)
    modifies db, disk
    ensures db.Valid()
    ensures CompanyOf(user).Err? ==> r == Err(CompanyOf(user).error) && disk.files == old(disk.files)
    ensures CompanyOf(user).Ok? && CallerId(user).Err? ==> r == Err(CallerId(user).error) && disk.files == old(disk.files)
    ensures CompanyOf(user).Ok? && CallerId(user).Ok? && CalculateHours(form.arrivalTime, form.departureTime).Err? ==>
              r == Err(Crash("ValueError")) && disk.files == old(disk.files)
    ensures Admitted(user, form) && BadSignature(form, decode) ==>
              r == Err(Crash("binascii.Error")) && disk.files == old(disk.files)
    ensures Admitted(user, form) && !BadSignature(form, decode) ==>
              disk.files == AttachmentsStored(old(disk.files), form, decode, names)
    ensures Admitted(user, form) && !BadSignature(form, decode) && !Storable(user, form, decode) ==>
              r == Err(Crash("IntegrityError"))
    ensures r.Ok? <==> Storable(user, form, decode)
    ensures r.Err? ==> db.jobcards == old(db.jobcards) && db.nextJobCardId == old(db.nextJobCardId)
    ensures r.Ok? ==>
              var jn := NextJobNumber(today, JobNumbers(old(db.jobcards)));
              var hours := CalculateHours(form.arrivalTime, form.departureTime).value;
              var files := Planned(form, names);
              var row := NewCard(form, CompanyOf(user).value, CallerId(user).value, hours, files.signature,
                                 files.before, files.after, files.materials, jn, now).(id := old(db.nextJobCardId));
              db.jobcards == old(db.jobcards) + [row] &&
              r.value.0 == Submitted(jn, hours) &&
              r.value.1 == DeferredFor(row.id, CompanyById(old(db.companies), CompanyOf(user).value))
    ensures db.companies == old(db.companies) && db.users == old(db.users)
    ensures db.clients == old(db.clients) && db.tasks == old(db.tasks)
  {
    var company := CompanyOf(user);
    if company.Err? {
      return Err(company.error);
    }
    var createdBy := CallerId(user);
    if createdBy.Err? {
      return Err(createdBy.error);
    }
    var hours := CalculateHours(form.arrivalTime, form.departureTime);
    if hours.Err? {
      return Err(hours.error);
    }
    var files := SaveAttachments(disk, form, decode, names);
    if files.Err? {
      return Err(files.error);
    }
    var a := files.value;
    var jn := NextJobNumber(today, JobNumbers(db.jobcards));
    SubmissionNumberIsFresh(today, db.jobcards);
    var card := NewCard(form, company.value, createdBy.value, hours.value, a.signature, a.before, a.after, a.materials,
                        jn, now);
    var inserted := db.InsertJobCard(card);
    if inserted.Err? {
      return Err(inserted.error);
    }
    var row := inserted.value;
    var found := CompanyById(db.companies, company.value);
    r := Ok((Submitted(row.jobNumber, hours.value), DeferredFor(row.id, found)));
  }

  /** The corrected allocator never hands the insert a taken number, so a signed, complete form is stored. */
  lemma SubmissionNumberIsFresh(today: Date, cards: seq<JobCard>)
    ensures forall i :: 0 <= i < |cards| ==> cards[i].jobNumber != NextJobNumber(today, JobNumbers(cards))
  {
    DayPrefixTagged(today);
    AllocateFresh(DayPrefix(today), JobNumbers(cards));
    JobNumbersTaken(cards, NextJobNumber(today, JobNumbers(cards)));
  }

  // ---------------------------------------------------------------------
  // process_jobcard_async
  // ---------------------------------------------------------------------

  /** What the background task does that the outside world sees, in order. */
  datatype Effect = PdfWritten(path: string) | EmailSent(to: string, companyName: string, jobNumber: string, path: string)

  /** `os.path.join(UPLOAD_DIR, "jobcards", f"{job_number}.pdf")` */
  function JobCardPdfPath(jobNumber: string): string {
    DiskPath("jobcards", jobNumber + ".pdf")
  }

  /** Unless the job number is itself an absolute path, this is the path the admin download reads. */
  lemma PdfPathsAgree(jobNumber: string)
    requires !StartsWith(jobNumber, "/")
    ensures JobCardPdfPath(jobNumber) == PdfDiskPath(jobNumber)
  {
    var f := jobNumber + ".pdf";
    assert !StartsWith(f, "/") by {
      if |jobNumber| > 0 {
        assert jobNumber[..1] == [jobNumber[0]];
        assert jobNumber[0] != '/';
        assert f[..1] == [jobNumber[0]];
      } else {
        assert f == ".pdf";
        assert f[..1] == ['.'];
      }
    }
    assert !StartsWith("jobcards", "/");
    assert PosixJoin(UploadDir, "jobcards") == "/data/uploads/jobcards";
  }

  /**
   * `process_jobcard_async`: nothing for an unknown id; otherwise the PDF is
   * rendered first, and the company is mailed only after a successful render
   * and only when its address is non-empty. A render that raises ends the task.
   */
  method ProcessJobCard(cards: seq<JobCard>, disk: Disk, id: int, email: Option<string>, name: string,
                        render: JobCard -> Option<seq<byte>>)
    returns (effects: seq<Effect>)
    modifies disk
    ensures FirstWhere(cards, CardKey, id).None? ==> effects == [] && disk.files == old(disk.files)
    ensures FirstWhere(cards, CardKey, id).Some? ==>
              var jc := cards[FirstWhere(cards, CardKey, id).value];
              var path := JobCardPdfPath(jc.jobNumber);
              (render(jc).None? ==> effects == [] && disk.files == old(disk.files)) &&
              (render(jc).Some? ==> disk.files == old(disk.files)[path := render(jc).value]) &&
              (render(jc).Some? && Truthy(email) ==>
                 effects == [PdfWritten(path), EmailSent(email.value, name, jc.jobNumber, path)]) &&
              (render(jc).Some? && !Truthy(email) ==> effects == [PdfWritten(path)])
    ensures forall k :: 0 <= k < |effects| && effects[k].EmailSent? ==> k > 0 && effects[0].PdfWritten? && Truthy(email)
  {
    effects := [];
    var found := FirstWhere(cards, CardKey, id);
    if found.None? {
      return;
    }
    var jc := cards[found.value];
    var path := JobCardPdfPath(jc.jobNumber);
    var pdf := render(jc);
    if pdf.None? {
      return;
    }
    disk.Write(path, pdf.value);
    effects := effects + [PdfWritten(path)];
    if Truthy(email) {
      effects := effects + [EmailSent(email.value, name, jc.jobNumber, path)];
    }
  }

  // ---------------------------------------------------------------------
  // get_jobcard_pdf
  // ---------------------------------------------------------------------

  /** `get_jobcard_pdf`: the caller's own card by id, then the file on disk, each missing one a 404. */
  function GetJobCardPdf(cards: seq<JobCard>, id: int, user: Payload, files: set<string>): (r: Result<FileReply>)
    ensures CompanyOf(user).Err? ==> r == Err(CompanyOf(user).error)
    ensures CompanyOf(user).Ok? ==>
              (r == Err(HttpError(404, "Job card not found")) <==>
               forall i :: 0 <= i < |cards| ==> !(cards[i].id == id && cards[i].companyId == CompanyOf(user).value))
    ensures CompanyOf(user).Ok? ==>
              (r == Err(HttpError(404, "PDF missing")) <==>
               exists i :: FirstInScope(cards, i, id, CompanyOf(user).value) && JobCardPdfPath(cards[i].jobNumber) !in files)
    ensures r.Ok? <==>
              CompanyOf(user).Ok? &&
              exists i :: FirstInScope(cards, i, id, CompanyOf(user).value) && JobCardPdfPath(cards[i].jobNumber) in files
    ensures r.Ok? ==>
              (r.value.path in files && r.value.mediaType == "application/pdf" &&
               exists i :: FirstInScope(cards, i, id, CompanyOf(user).value) &&
                 r.value.path == JobCardPdfPath(cards[i].jobNumber) && r.value.downloadName == cards[i].jobNumber + ".pdf")
  {
    match CompanyOf(user)
    case Err(e) => Err(e)
    case Ok(company) =>
      FindCardFirst(cards, id, company);
      FirstInScopeUnique(cards, id, company);
      match FindCard(cards, id, company)
      case None => Err(HttpError(404, "Job card not found"))
      case Some(jc) =>
        var path := JobCardPdfPath(jc.jobNumber);
        if path !in files then Err(HttpError(404, "PDF missing"))
        else Ok(FileReply(path, "application/pdf", jc.jobNumber + ".pdf"))
  }

  /** Another company's cards play no part in the download either. */
  lemma GetJobCardPdfTenantBlind(cards: seq<JobCard>, id: int, user: Payload, files: set<string>)
    requires CompanyOf(user).Ok?
    ensures GetJobCardPdf(cards, id, user, files) ==
              GetJobCardPdf(Where(cards, CardCompany, CompanyOf(user).value), id, user, files)
  {
    FindCardTenantBlind(cards, id, CompanyOf(user).value);
  }
}
