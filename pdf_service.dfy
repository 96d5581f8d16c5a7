/**
 * The layout rules of `backend/services/pdf_service.py` that decide WHAT is
 * drawn WHERE, without the canvas: which photo files a card's photo column
 * names, where the thumbnails of a photo grid go, and where the label and
 * value of each meta field go.
 *
 * Drawing itself is an effect on a canvas; the methods here return the
 * sequence of draw calls they would make. Whether a file exists and whether
 * PIL can open it are sets of paths given as parameters. Coordinates are
 * whole points: the page geometry that feeds `start_y` and `right_x` enters
 * as parameters.
 */
module PdfService {
  import opened Common
  import opened Decimal
  import opened Models
  import opened JobCards

  // ---------------------------------------------------------------------
  // Photo-path normalisation
  // ---------------------------------------------------------------------

  /** The ASCII characters `str.strip()` removes. */
  predicate IsSpace(c: char) {
    c == ' ' || c == '\t' || c == '\n' || c == '\r' || c == '\U{0B}' || c == '\U{0C}' ||
    c == '\U{1C}' || c == '\U{1D}' || c == '\U{1E}' || c == '\U{1F}'
  }

  /** Where the first non-space character of `s` is, `|s|` when there is none. */
  function LeadingSpaces(s: string): (i: nat)
    ensures i <= |s|
    ensures forall k :: 0 <= k < i ==> IsSpace(s[k])
    ensures i < |s| ==> !IsSpace(s[i])
    decreases |s|
  {
    if |s| == 0 || !IsSpace(s[0]) then 0 else 1 + LeadingSpaces(s[1..])
  }

  /** One past the last non-space character of `s` at or after `lo`, `lo` when there is none. */
  function ContentEnd(s: string, lo: nat): (j: nat)
    requires lo <= |s|
    ensures lo <= j <= |s|
    ensures forall k :: j <= k < |s| ==> IsSpace(s[k])
    ensures j > lo ==> !IsSpace(s[j - 1])
    decreases |s|
  {
    if |s| == lo || !IsSpace(s[|s| - 1]) then |s| else ContentEnd(s[..|s| - 1], lo)
  }

  /** `s.strip()`: the result neither starts nor ends with a space. */
  function Strip(s: string): (r: string)
    ensures |r| == 0 || (!IsSpace(r[0]) && !IsSpace(r[|r| - 1]))
    ensures |r| <= |s|
  {
    var lo := LeadingSpaces(s);
    s[lo..ContentEnd(s, lo)]
  }

  /** The first non-space character is where the leading spaces stop. */
  lemma LeadingSpacesAt(s: string, i: nat)
    requires i <= |s| && (forall k :: 0 <= k < i ==> IsSpace(s[k])) && (i < |s| ==> !IsSpace(s[i]))
    ensures LeadingSpaces(s) == i
  {
  }

  /** The content ends after the last non-space character. */
  lemma ContentEndAt(s: string, lo: nat, j: nat)
    requires lo <= j <= |s| && (forall k :: j <= k < |s| ==> IsSpace(s[k])) && (j > lo ==> !IsSpace(s[j - 1]))
    ensures ContentEnd(s, lo) == j
  {
  }

  /** Stripping removes exactly the surrounding spaces of a text that has no spaces at its ends. */
  lemma StripSurrounding(a: string, t: string, b: string)
    requires forall k :: 0 <= k < |a| ==> IsSpace(a[k])
    requires forall k :: 0 <= k < |b| ==> IsSpace(b[k])
    requires |t| == 0 || (!IsSpace(t[0]) && !IsSpace(t[|t| - 1]))
    ensures Strip(a + t + b) == t
  {
    var s := a + t + b;
    var n := |a| + |t|;
    assert forall k :: 0 <= k < |a| ==> s[k] == a[k];
    assert forall k :: n <= k < |s| ==> s[k] == b[k - n];
    assert forall k :: |a| <= k < n ==> s[k] == t[k - |a|];
    if |t| == 0 {
      LeadingSpacesAt(s, |s|);
      ContentEndAt(s, |s|, |s|);
    } else {
      LeadingSpacesAt(s, |a|);
      ContentEndAt(s, |a|, n);
    }
    assert s[|a|..n] == t;
  }

  /** `s.replace(a, b)` for single characters. */
  function ReplaceChar(s: string, a: char, b: char): (r: string)
    ensures |r| == |s|
    ensures forall i :: 0 <= i < |s| ==> r[i] == (if s[i] == a then b else s[i])
  {
    seq(|s|, i requires 0 <= i < |s| => if s[i] == a then b else s[i])
  }

  /** `s.lstrip(c)`: `s` without its leading run of `c`. */
  function LStrip(s: string, c: char): (r: string)
    ensures |r| <= |s| && r == s[|s| - |r|..]
    ensures forall k :: 0 <= k < |s| - |r| ==> s[k] == c
    ensures |r| > 0 ==> r[0] != c
    decreases |s|
  {
    if |s| > 0 && s[0] == c then LStrip(s[1..], c) else s
  }

  /** `base_dir / rest` for a `rest` that does not start with `/`: the empty rest names the base itself. */
  function Under(base: string, rest: string): string {
    if rest == "" then base else base + "/" + rest
  }

  /** The path one photo entry names: backslashes become `/`, an entry with `:` is taken as it is, any other lies under the base. */
  function ResolvePath(p: string, base: string): (r: string)
    ensures ':' in p ==> r == ReplaceChar(p, '\\', '/')
    ensures ':' !in p ==> StartsWith(r, base)
  {
    var q := ReplaceChar(p, '\\', '/');
    if ':' in q then q else Under(base, LStrip(q, '/'))
  }

  /** `not photo_field`: `NULL`, the empty list, the empty text. */
  predicate FieldEmpty(field: PhotoField) {
    match field
    case NoneField => true
    case ListField(items) => items == []
    case TextField(text) => text == ""
  }

  function StripAll(pieces: seq<string>): (r: seq<string>)
    ensures |r| == |pieces| && forall i :: 0 <= i < |pieces| ==> r[i] == Strip(pieces[i])
  {
    seq(|pieces|, i requires 0 <= i < |pieces| => Strip(pieces[i]))
  }

  /** The entries a photo column names: a list as it is, a text split on `,` with each piece stripped. */
  function RawPaths(field: PhotoField): (r: seq<string>)
    ensures FieldEmpty(field) ==> r == []
    ensures field.ListField? ==> r == field.items
    ensures field.TextField? && field.text != "" ==> |r| == |Split(field.text, ',')|
  {
    match field
    case NoneField => []
    case ListField(items) => items
    case TextField(text) => if text == "" then [] else StripAll(Split(text, ','))
  }

  /** The resolved entries that exist, in entry order. */
  function Kept(raw: seq<string>, base: string, existing: set<string>): (r: seq<string>)
    ensures |r| <= |raw|
    decreases |raw|
  {
    if |raw| == 0 then []
    else
      var p := ResolvePath(raw[|raw| - 1], base);
      Kept(raw[..|raw| - 1], base, existing) + (if p in existing then [p] else [])
  }

  /** `normalize_photo_paths`: the existing files a photo column names, in the column's order. */
  method NormalizePhotoPaths(field: PhotoField, base: string, existing: set<string>) returns (paths: seq<string>)
    ensures paths == Kept(RawPaths(field), base, existing)
  {
    if FieldEmpty(field) {
      return [];
    }
    paths := KeepExisting(RawPaths(field), base, existing);
  }

  /** The loop of `normalize_photo_paths` over the entries. */
  method KeepExisting(raw: seq<string>, base: string, existing: set<string>) returns (paths: seq<string>)
    ensures paths == Kept(raw, base, existing)
  {
    paths := [];
    var k := 0;
    while k < |raw|
      invariant 0 <= k <= |raw|
      invariant paths == Kept(raw[..k], base, existing)
    {
      var path := ResolvePath(raw[k], base);
      KeptStep(raw, k, base, existing);
      if path in existing {
        paths := paths + [path];
      }
      k := k + 1;
    }
    assert raw[..k] == raw;
  }

  /** One more entry keeps its path when that exists. */
  lemma KeptStep(raw: seq<string>, k: nat, base: string, existing: set<string>)
    requires k < |raw|
    ensures Kept(raw[..k + 1], base, existing) ==
            Kept(raw[..k], base, existing) + (if ResolvePath(raw[k], base) in existing then [ResolvePath(raw[k], base)] else [])
  {
    assert raw[..k + 1][..k] == raw[..k];
  }

  /** A path is kept iff some entry resolves to it and it exists. */
  lemma {:induction false} KeptMembers(raw: seq<string>, base: string, existing: set<string>, x: string)
    ensures x in Kept(raw, base, existing) <==>
            x in existing && exists i :: 0 <= i < |raw| && ResolvePath(raw[i], base) == x
    decreases |raw|
  {
    if |raw| > 0 {
      var init := raw[..|raw| - 1];
      KeptMembers(init, base, existing, x);
      var f := p => ResolvePath(p, base);
      HitSnoc(raw, init, f, x);
      assert forall i :: 0 <= i < |raw| ==> f(raw[i]) == ResolvePath(raw[i], base);
      assert forall i :: 0 <= i < |init| ==> f(init[i]) == ResolvePath(init[i], base);
    }
  }

  /** Some entry maps to `x` iff one before the last does, or the last one does. */
  lemma HitSnoc(raw: seq<string>, init: seq<string>, f: string -> string, x: string)
    requires |raw| > 0 && init == raw[..|raw| - 1]
    ensures (exists i :: 0 <= i < |raw| && f(raw[i]) == x) <==>
            (exists i :: 0 <= i < |init| && f(init[i]) == x) || f(raw[|raw| - 1]) == x
  {
    assert forall i :: 0 <= i < |init| ==> init[i] == raw[i];
  }

  /** Keeping preserves order: the kept paths of two runs of entries are those of the first, then those of the second. */
  lemma {:induction false} KeptAppend(a: seq<string>, b: seq<string>, base: string, existing: set<string>)
    ensures Kept(a + b, base, existing) == Kept(a, base, existing) + Kept(b, base, existing)
    decreases |b|
  {
    if |b| == 0 {
      assert a + b == a;
    } else {
      var b' := b[..|b| - 1];
      assert (a + b)[..|a + b| - 1] == a + b';
      assert (a + b)[|a + b| - 1] == b[|b| - 1];
      KeptAppend(a, b', base, existing);
    }
  }

  /** When every named file exists, one path is kept per entry. */
  lemma {:induction false} KeptAll(raw: seq<string>, base: string, existing: set<string>)
    requires forall i :: 0 <= i < |raw| ==> ResolvePath(raw[i], base) in existing
    ensures |Kept(raw, base, existing)| == |raw|
    decreases |raw|
  {
    if |raw| > 0 {
      var init := raw[..|raw| - 1];
      assert forall i :: 0 <= i < |init| ==> init[i] == raw[i];
      KeptAll(init, base, existing);
    }
  }

  /** A comma-separated text column names its pieces, stripped. */
  lemma TextFieldPieces(a: string, b: string)
    requires ',' !in a && ',' !in b
    ensures RawPaths(TextField(a + "," + b)) == [Strip(a), Strip(b)]
  {
    SplitTwo(a, ',', b);
    assert a + "," + b == a + [','] + b;
    var r := StripAll([a, b]);
    assert r == [Strip(a), Strip(b)];
  }

  /** Replacing a character that does not occur changes nothing. */
  lemma ReplaceAbsent(s: string, a: char, b: char)
    requires a !in s
    ensures ReplaceChar(s, a, b) == s
  {
  }

  /** A Windows-style entry with a drive letter is taken as it is, with forward slashes. */
  lemma DriveEntry()
    ensures ResolvePath("C:\\p\\a.jpg", "/data") == "C:/p/a.jpg"
  {
    var q := ReplaceChar("C:\\p\\a.jpg", '\\', '/');
    assert q == "C:/p/a.jpg";
    assert q[1] == ':';
  }

  /** An entry without `:` and without a backslash lies under the base. */
  lemma RelativeEntry(p: string, base: string)
    requires ':' !in p && '\\' !in p && |p| > 0 && p[0] != '/'
    ensures ResolvePath(p, base) == base + "/" + p
  {
    ReplaceAbsent(p, '\\', '/');
  }

  /** Leading slashes of an entry without `:` play no part: such an entry always lies under the base. */
  lemma LeadingSlashIgnored(p: string, base: string)
    requires ':' !in p && '\\' !in p
    ensures ResolvePath("/" + p, base) == ResolvePath(p, base)
  {
    var p1 := "/" + p;
    assert ':' !in p1 && '\\' !in p1;
    ReplaceAbsent(p, '\\', '/');
    ReplaceAbsent(p1, '\\', '/');
    assert p1[1..] == p;
  }

  /** The public path `save_upload_file` returns for a photo resolves to the file it wrote. */
  lemma StoredPhotoResolves(subfolder: string, filename: string)
    requires ':' !in subfolder && '\\' !in subfolder && ':' !in filename && '\\' !in filename
    requires |subfolder| > 0 && subfolder[0] != '/' && subfolder[|subfolder| - 1] != '/'
    requires |filename| > 0 && filename[0] != '/'
    ensures ResolvePath(PublicPath(subfolder, filename), "/data") == DiskPath(subfolder, filename)
  {
    var rel := "uploads/" + subfolder + "/" + filename;
    PublicPathShape(subfolder, filename);
    StoredUnderPublicPath(subfolder, filename);
    LeadingSlashIgnored(rel, "/data");
    RelativeEntry(rel, "/data");
  }

  /** A public path is `/` before a relative path that holds no `:` and no backslash. */
  lemma PublicPathShape(subfolder: string, filename: string)
    requires ':' !in subfolder && '\\' !in subfolder && ':' !in filename && '\\' !in filename
    ensures var rel := "uploads/" + subfolder + "/" + filename;
            ':' !in rel && '\\' !in rel && |rel| > 0 && rel[0] != '/' && PublicPath(subfolder, filename) == "/" + rel &&
            "/data" + PublicPath(subfolder, filename) == "/data" + "/" + rel
  {
  }

  // ---------------------------------------------------------------------
  // Thumbnail grid
  // ---------------------------------------------------------------------

  /** Thumbnail size and the gap between thumbnails. */
  const ThumbWidth := 120
  const ThumbHeight := 80
  const Padding := 10

  /** One `drawImage` call: a 120 by 80 thumbnail with its lower-left corner at (x, y). */
  datatype Thumb = Thumb(path: string, x: int, y: int)

  /** The right edge of the thumbnail that the cursor puts `j` steps from the row start. */
  function RowEnd(j: int): int {
    j * (ThumbWidth + Padding) + ThumbWidth
  }

  /** How many thumbnails fit in a row of the given width: the first that would cross the right edge starts a new row. */
  function PerRow(maxWidth: int): (c: nat)
    ensures c >= 1
    ensures RowEnd(c) > maxWidth
    ensures forall j :: 1 <= j < c ==> RowEnd(j) <= maxWidth
  {
    if maxWidth < 250 then 1
    else
      var q := (maxWidth - 120) / 130;
      assert 130 * q <= maxWidth - 120 < 130 * q + 130;
      assert forall j :: 1 <= j < q + 1 ==> RowEnd(j) <= RowEnd(q);
      q + 1
  }

  /** With the default width of 500 a row holds three thumbnails. */
  lemma DefaultRowHoldsThree()
    ensures PerRow(500) == 3
  {
  }

  /** The photos PIL can open, in order. */
  function Loaded(paths: seq<string>, images: set<string>): (r: seq<string>)
    ensures |r| <= |paths|
    ensures forall x :: x in r ==> x in images && x in paths
    decreases |paths|
  {
    if |paths| == 0 then []
    else Loaded(paths[..|paths| - 1], images) + (if paths[|paths| - 1] in images then [paths[|paths| - 1]] else [])
  }

  function ThumbPaths(thumbs: seq<Thumb>): (r: seq<string>)
    ensures |r| == |thumbs| && forall k :: 0 <= k < |thumbs| ==> r[k] == thumbs[k].path
  {
    seq(|thumbs|, k requires 0 <= k < |thumbs| => thumbs[k].path)
  }

  /** A non-zero multiple of `c` is at least `c` away from zero. */
  lemma {:induction false} MulAwayFromZero(c: int, d: int)
    requires c > 0
    ensures d >= 1 ==> c * d >= c
    ensures d <= -1 ==> c * d <= -c
    decreases if d < 0 then -d else d
  {
    if d > 1 {
      MulAwayFromZero(c, d - 1);
      assert c * d == c * (d - 1) + c;
    } else if d < -1 {
      MulAwayFromZero(c, d + 1);
      assert c * d == c * (d + 1) - c;
    }
  }

  /** Euclidean division is determined by quotient and remainder. */
  lemma DivModUnique(n: int, c: int, q: int, r: int)
    requires c > 0 && 0 <= r < c && n == c * q + r
    ensures n / c == q && n % c == r
  {
    var q0, r0 := n / c, n % c;
    assert n == c * q0 + r0 && 0 <= r0 < c;
    MulAwayFromZero(c, q0 - q);
    assert c * (q0 - q) == r - r0;
  }

  /** Counting on by one: the column advances, or wraps to 0 with the row advancing. */
  lemma DivModStep(n: nat, c: nat)
    requires c >= 1
    ensures n % c + 1 < c ==> (n + 1) % c == n % c + 1 && (n + 1) / c == n / c
    ensures n % c + 1 == c ==> (n + 1) % c == 0 && (n + 1) / c == n / c + 1
  {
    var q, r := n / c, n % c;
    assert n == c * q + r;
    if r + 1 < c {
      DivModUnique(n + 1, c, q, r + 1);
    } else {
      DivModUnique(n + 1, c, q + 1, 0);
    }
  }

  /** The cursor wraps exactly when the next column's thumbnail would pass the right margin. */
  lemma CursorStep(n: nat, maxWidth: int)
    ensures RowEnd(n % PerRow(maxWidth) + 1) > maxWidth ==>
              (n + 1) % PerRow(maxWidth) == 0 && (n + 1) / PerRow(maxWidth) == n / PerRow(maxWidth) + 1
    ensures RowEnd(n % PerRow(maxWidth) + 1) <= maxWidth ==>
              (n + 1) % PerRow(maxWidth) == n % PerRow(maxWidth) + 1 && (n + 1) / PerRow(maxWidth) == n / PerRow(maxWidth)
  {
    var c := PerRow(maxWidth);
    DivModStep(n, c);
    if n % c + 1 < c {
      assert RowEnd(n % c + 1) <= maxWidth;
    }
  }

  lemma ThumbPathsSnoc(thumbs: seq<Thumb>, t: Thumb)
    ensures ThumbPaths(thumbs + [t]) == ThumbPaths(thumbs) + [t.path]
  {
  }

  lemma LoadedStep(paths: seq<string>, i: nat, images: set<string>)
    requires i < |paths|
    ensures Loaded(paths[..i + 1], images) ==
            Loaded(paths[..i], images) + (if paths[i] in images then [paths[i]] else [])
  {
    assert paths[..i + 1][..i] == paths[..i];
  }

  /** The k-th thumbnail sits in column k mod c and row k div c of the grid. */
  predicate Placed(thumbs: seq<Thumb>, startX: int, startY: int, c: nat)
    requires c >= 1
  {
    forall k :: 0 <= k < |thumbs| ==>
      thumbs[k].x == startX + 130 * (k % c) && thumbs[k].y == startY - 90 * (k / c) - 80
  }

  lemma PlacedSnoc(thumbs: seq<Thumb>, t: Thumb, startX: int, startY: int, c: nat)
    requires c >= 1 && Placed(thumbs, startX, startY, c)
    requires t.x == startX + 130 * (|thumbs| % c) && t.y == startY - 90 * (|thumbs| / c) - 80
    ensures Placed(thumbs + [t], startX, startY, c)
  {
    forall k | 0 <= k < |thumbs| + 1
      ensures (thumbs + [t])[k].x == startX + 130 * (k % c) && (thumbs + [t])[k].y == startY - 90 * (k / c) - 80
    {
      if k < |thumbs| { assert (thumbs + [t])[k] == thumbs[k]; }
    }
  }

  /** One step of the cursor after the n-th loaded thumbnail: it moves right, or back to the start of the next row. */
  lemma Advance(n: nat, startX: int, startY: int, maxWidth: int)
    ensures var c := PerRow(maxWidth);
            var x := startX + 130 * (n % c) + ThumbWidth + Padding;
            var y := startY - 90 * (n / c);
            if x + ThumbWidth > startX + maxWidth then
              startX == startX + 130 * ((n + 1) % c) && y - (ThumbHeight + Padding) == startY - 90 * ((n + 1) / c)
            else
              x == startX + 130 * ((n + 1) % c) && y == startY - 90 * ((n + 1) / c)
  {
    CursorStep(n, maxWidth);
  }

  /**
   * `draw_photo_grid`: the k-th thumbnail that loads goes to column k mod c and row k div c,
   * where c thumbnails fit in a row; a photo that does not load is skipped without moving
   * the cursor. The result is 100 points below the top of the last row.
   */
  method DrawPhotoGrid(paths: seq<string>, images: set<string>, startX: int, startY: int, maxWidth: int)
    returns (thumbs: seq<Thumb>, bottom: int)
    ensures ThumbPaths(thumbs) == Loaded(paths, images)
    ensures forall k :: 0 <= k < |thumbs| ==>
              thumbs[k].x == startX + 130 * (k % PerRow(maxWidth)) &&
              thumbs[k].y == startY - 90 * (k / PerRow(maxWidth)) - 80
    ensures bottom == startY - 90 * (|thumbs| / PerRow(maxWidth)) - 100
  {
    var c := PerRow(maxWidth);
    var x, y := startX, startY;
    thumbs := [];
    var i := 0;
    while i < |paths|
      invariant 0 <= i <= |paths|
      invariant ThumbPaths(thumbs) == Loaded(paths[..i], images)
      invariant x == startX + 130 * (|thumbs| % c) && y == startY - 90 * (|thumbs| / c)
      invariant Placed(thumbs, startX, startY, c)
    {
      var path := paths[i];
      LoadedStep(paths, i, images);
      if path in images {
        var t := Thumb(path, x, y - ThumbHeight);
        ThumbPathsSnoc(thumbs, t);
        PlacedSnoc(thumbs, t, startX, startY, c);
        Advance(|thumbs|, startX, startY, maxWidth);
        thumbs := thumbs + [t];
        x := x + ThumbWidth + Padding;
        if x + ThumbWidth > startX + maxWidth {
          x := startX;
          y := y - (ThumbHeight + Padding);
        }
      }
      i := i + 1;
    }
    assert paths[..i] == paths;
    bottom := y - ThumbHeight - 20;
  }

  // ---------------------------------------------------------------------
  // Meta fields
  // ---------------------------------------------------------------------

  /** A meta value: a text column, or `hours_worked` in hundredths of an hour. */
  datatype MetaValue = TextValue(text: Option<string>) | HoursValue(hours: Option<int>)

  /** `value or ""` takes the default: `None`, the empty text, and `0.0` hours. */
  predicate Falsy(v: MetaValue) {
    match v
    case TextValue(t) => !Truthy(t)
    case HoursValue(h) => h.None? || h.value == 0
  }

  /** The one or two decimals `repr` prints for a whole number of hundredths. */
  function FracText(f: nat): (r: string)
    requires f < 100
    ensures |r| == 1 || |r| == 2
    ensures AllDigits(r) && DigitValue(r[0]) == f / 10
    ensures |r| == 1 <==> f % 10 == 0
    ensures |r| == 2 ==> DigitValue(r[1]) == f % 10
  {
    if f % 10 == 0 then [DigitChar(f / 10)] else [DigitChar(f / 10), DigitChar(f % 10)]
  }

  /** `str(h / 100)` for the float that `round(..., 2)` leaves: sign, whole hours, `.`, one or two decimals. */
  function FloatText(h: int): (r: string)
    ensures |r| > 0 && (r[0] == '-' <==> h < 0)
  {
    if h < 0 then "-" + UnsignedText(-h) else UnsignedText(h)
  }

  /** The digits of the whole hours, `.`, and one or two decimals. */
  function UnsignedText(a: nat): (r: string)
    ensures |r| > 0 && IsDigit(r[0])
  {
    var w := NatToString(a / 100);
    assert (w + "." + FracText(a % 100))[0] == w[0];
    w + "." + FracText(a % 100)
  }

  /** Reads an unsigned `<digits>.<one or two digits>` back as hundredths. */
  function UnsignedHundredths(t: string): Option<nat> {
    var k := IndexOf(t, '.');
    if k == |t| then None
    else
      var whole, frac := t[..k], t[k + 1..];
      if |whole| == 0 || !AllDigits(whole) || !AllDigits(frac) || !(|frac| == 1 || |frac| == 2) then None
      else Some(100 * Value(whole) + (if |frac| == 1 then 10 * DigitValue(frac[0]) else 10 * DigitValue(frac[0]) + DigitValue(frac[1])))
  }

  /** Reads a printed hours value back as hundredths. */
  function ParseHundredths(s: string): Option<int> {
    if |s| > 0 && s[0] == '-' then
      match UnsignedHundredths(s[1..])
      case Some(v) => Some(-(v as int))
      case None => None
    else
      match UnsignedHundredths(s)
      case Some(v) => Some(v as int)
      case None => None
  }

  lemma UnsignedRoundTrip(a: nat)
    ensures UnsignedHundredths(UnsignedText(a)) == Some(a)
  {
    var w, f := NatToString(a / 100), FracText(a % 100);
    DottedParts(w, f);
    var fv := if |f| == 1 then 10 * DigitValue(f[0]) else 10 * DigitValue(f[0]) + DigitValue(f[1]);
    assert fv == a % 100;
  }

  /** A run of digits, a `.`, and anything: the `.` is the first one, and splitting there gives the parts back. */
  lemma DottedParts(w: string, f: string)
    requires AllDigits(w)
    ensures IndexOf(w + "." + f, '.') == |w|
    ensures (w + "." + f)[..|w|] == w && (w + "." + f)[|w| + 1..] == f
  {
    var t := w + "." + f;
    assert forall i :: 0 <= i < |w| ==> t[i] == w[i] && IsDigit(w[i]);
    assert t[|w|] == '.';
    assert t[..|w|] == w;
    assert t[|w| + 1..] == f;
  }

  /** The printed hours read back as the stored hundredths. */
  lemma FloatTextRoundTrip(h: int)
    ensures ParseHundredths(FloatText(h)) == Some(h)
  {
    var a := if h < 0 then -h else h;
    UnsignedRoundTrip(a);
    SignedRead(UnsignedText(a), a);
  }

  /** An unsigned reading that does not start with `-` reads back as it is, and negated after a `-`. */
  lemma SignedRead(u: string, v: nat)
    requires UnsignedHundredths(u) == Some(v) && |u| > 0 && u[0] != '-'
    ensures ParseHundredths(u) == Some(v as int)
    ensures ParseHundredths("-" + u) == Some(-(v as int))
  {
    assert ("-" + u)[1..] == u;
  }

  /** `str(value or "")` */
  function Shown(v: MetaValue): (r: string)
    ensures r == "" <==> Falsy(v)
    ensures v.TextValue? && !Falsy(v) ==> r == v.text.value
    ensures v.HoursValue? && !Falsy(v) ==> ParseHundredths(r) == Some(v.hours.value)
  {
    match v
    case TextValue(t) => if Truthy(t) then t.value else ""
    case HoursValue(h) =>
      if h.None? || h.value == 0 then ""
      else
        FloatTextRoundTrip(h.value);
        FloatText(h.value)
  }

  /** The ten meta fields of a card, in print order. */
  function MetaOf(jc: JobCard): (r: seq<(string, MetaValue)>)
    ensures |r| == 10
  {
    [("Job Number", TextValue(Some(jc.jobNumber))),
     ("Client", TextValue(Some(jc.clientName))),
     ("Site Address", TextValue(Some(jc.siteAddress))),
     ("Contact Person", TextValue(Some(jc.contactPerson))),
     ("Contact Number", TextValue(jc.contactNumber)),
     ("Technician", TextValue(Some(jc.technicianName))),
     ("Arrival Time", TextValue(jc.arrivalTime)),
     ("Departure Time", TextValue(jc.departureTime)),
     ("Hours Worked", HoursValue(jc.hoursWorked)),
     ("Instructions Given By", TextValue(jc.instructionGivenBy))]
  }

  /** One `drawString` call. */
  datatype TextAt = TextAt(x: int, y: int, text: string)

  /** How far the cursor has dropped before field `i`: 14 points per completed pair. */
  function RowDrop(i: nat): int {
    14 * (i / 2)
  }

  /** The column of field `i`: left for even `i`, right for odd. */
  function Column(i: nat, leftX: int, rightX: int): int {
    if i % 2 == 0 then leftX else rightX
  }

  /** The label and the value of field `i`, drawn on the row of its pair. */
  predicate FieldDrawn(texts: seq<TextAt>, meta: seq<(string, MetaValue)>, i: nat, leftX: int, rightX: int, y0: int)
    requires i < |meta| && 2 * i + 1 < |texts|
  {
    texts[2 * i] == TextAt(Column(i, leftX, rightX), y0 - RowDrop(i), meta[i].0 + ":") &&
    texts[2 * i + 1] == TextAt(Column(i, leftX, rightX) + 110, y0 - RowDrop(i), Shown(meta[i].1))
  }

  /** The first `n` fields are drawn. */
  predicate FieldsDrawn(texts: seq<TextAt>, meta: seq<(string, MetaValue)>, n: nat, leftX: int, rightX: int, y0: int)
    requires n <= |meta| && |texts| == 2 * n
  {
    forall i :: 0 <= i < n ==> FieldDrawn(texts, meta, i, leftX, rightX, y0)
  }

  lemma FieldsDrawnSnoc(texts: seq<TextAt>, meta: seq<(string, MetaValue)>, n: nat, leftX: int, rightX: int, y0: int)
    requires n < |meta| && |texts| == 2 * n && FieldsDrawn(texts, meta, n, leftX, rightX, y0)
    ensures var more := texts + [TextAt(Column(n, leftX, rightX), y0 - RowDrop(n), meta[n].0 + ":"),
                                 TextAt(Column(n, leftX, rightX) + 110, y0 - RowDrop(n), Shown(meta[n].1))];
            FieldsDrawn(more, meta, n + 1, leftX, rightX, y0)
  {
    var more := texts + [TextAt(Column(n, leftX, rightX), y0 - RowDrop(n), meta[n].0 + ":"),
                         TextAt(Column(n, leftX, rightX) + 110, y0 - RowDrop(n), Shown(meta[n].1))];
    forall i | 0 <= i < n + 1 ensures FieldDrawn(more, meta, i, leftX, rightX, y0) {
      if i < n {
        assert FieldDrawn(texts, meta, i, leftX, rightX, y0);
        assert more[2 * i] == texts[2 * i] && more[2 * i + 1] == texts[2 * i + 1];
      }
    }
  }

  /** The cursor drops 14 points before each even field but the first. */
  lemma RowDropStep(i: nat)
    requires i > 0
    ensures RowDrop(i) == RowDrop(i - 1) + (if i % 2 == 0 then 14 else 0)
  {
  }

  /**
   * The meta loop: field `i` goes to the left column when `i` is even and to the right
   * one when it is odd, on the row of its pair; its label is drawn at the column, its
   * value 110 points further right. The cursor ends on the last row.
   */
  method LayoutMeta(meta: seq<(string, MetaValue)>, leftX: int, rightX: int, y0: int)
    returns (texts: seq<TextAt>, y: int)
    ensures |texts| == 2 * |meta|
    ensures forall i :: 0 <= i < |meta| ==>
              texts[2 * i] == TextAt(if i % 2 == 0 then leftX else rightX, y0 - RowDrop(i), meta[i].0 + ":") &&
              texts[2 * i + 1] == TextAt((if i % 2 == 0 then leftX else rightX) + 110, y0 - RowDrop(i), Shown(meta[i].1))
    ensures y == if |meta| == 0 then y0 else y0 - RowDrop(|meta| - 1)
  {
    texts := [];
    y := y0;
    var i := 0;
    while i < |meta|
      invariant 0 <= i <= |meta|
      invariant |texts| == 2 * i
      invariant y == if i == 0 then y0 else y0 - RowDrop(i - 1)
      invariant FieldsDrawn(texts, meta, i, leftX, rightX, y0)
    {
      var name, value := meta[i].0, meta[i].1;
      var x := if i % 2 == 0 then leftX else rightX;
      if i % 2 == 0 && i > 0 {
        y := y - 14;
      }
      if i > 0 {
        RowDropStep(i);
      }
      FieldsDrawnSnoc(texts, meta, i, leftX, rightX, y0);
      texts := texts + [TextAt(x, y, name + ":"), TextAt(x + 110, y, Shown(value))];
      i := i + 1;
    }
    forall i | 0 <= i < |meta|
      ensures texts[2 * i] == TextAt(if i % 2 == 0 then leftX else rightX, y0 - RowDrop(i), meta[i].0 + ":")
      ensures texts[2 * i + 1] == TextAt((if i % 2 == 0 then leftX else rightX) + 110, y0 - RowDrop(i), Shown(meta[i].1))
    {
      assert FieldDrawn(texts, meta, i, leftX, rightX, y0);
    }
  }
}
