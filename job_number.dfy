/**
 * The job-number allocator of `backend/services/job_number.py`: a pure
 * function of today's UTC date and the job numbers already stored (of every
 * company: the query has no tenant filter) to the next `DC-YYYYMMDD-NNN`.
 *
 * `NextJobNumberAsWritten` is the allocator as the code has it: it picks the
 * greatest same-day number in TEXT order, which stops being the numerically
 * greatest once a day reaches four-digit sequences. `NextJobNumber` is the
 * intended allocator (one past the numerically greatest same-day sequence),
 * which the submission flow uses.
 */
module JobNumber {
  import opened Common
  import opened Decimal
  import opened Lex
  import opened SqlPattern

  /** A calendar date, as `datetime.utcnow()` gives it. */
  datatype Date = Date(year: nat, month: nat, day: nat)

  /** `strftime("%Y%m%d")` */
  function DateStamp(d: Date): string {
    ZeroPad(d.year, 4) + ZeroPad(d.month, 2) + ZeroPad(d.day, 2)
  }

  /** For a four-digit year the stamp is eight digits that read back as the date. */
  lemma DateStampRoundTrip(d: Date)
    requires d.year < 10000 && d.month < 100 && d.day < 100
    ensures |DateStamp(d)| == 8 && AllDigits(DateStamp(d))
    ensures Value(DateStamp(d)[..4]) == d.year
    ensures Value(DateStamp(d)[4..6]) == d.month
    ensures Value(DateStamp(d)[6..]) == d.day
  {
    NatToStringLength(d.year, 4);
    NatToStringLength(d.month, 2);
    NatToStringLength(d.day, 2);
    var s := DateStamp(d);
    assert s[..4] == ZeroPad(d.year, 4);
    assert s[4..6] == ZeroPad(d.month, 2);
    assert s[6..] == ZeroPad(d.day, 2);
  }

  /** `f"DC-{today}-"` */
  function DayPrefix(today: Date): string {
    "DC-" + DateStamp(today) + "-"
  }

  /** A prefix the allocator can work with: no `LIKE` wildcard in it, and it ends in `-`. */
  predicate Tagged(prefix: string) {
    Literal(prefix) && |prefix| > 0 && prefix[|prefix| - 1] == '-'
  }

  lemma DayPrefixTagged(today: Date)
    ensures Tagged(DayPrefix(today))
  {
    var p := DayPrefix(today);
    var st := DateStamp(today);
    forall i | 0 <= i < |p| ensures p[i] != '%' && p[i] != '_' {
      if 3 <= i < 3 + |st| { assert p[i] == st[i - 3]; assert IsDigit(st[i - 3]); }
    }
  }

  /** `f"{prefix}{next_seq:03d}"` */
  function Format(prefix: string, n: nat): string {
    prefix + ZeroPad(n, 3)
  }

  /** The stored numbers that `job_number LIKE 'prefix%'` selects, in table order. */
  function SameDay(existing: seq<string>, prefix: string): (r: seq<string>)
    ensures forall x :: x in r <==> x in existing && Like(prefix + "%", x)
    decreases |existing|
  {
    if |existing| == 0 then []
    else
      assert forall x :: x in existing <==> x == existing[0] || x in existing[1..];
      (if Like(prefix + "%", existing[0]) then [existing[0]] else []) + SameDay(existing[1..], prefix)
  }

  /** For a prefix without wildcards the query selects exactly the stored numbers that start with it. */
  lemma SameDayMembers(existing: seq<string>, prefix: string)
    requires Literal(prefix)
    ensures forall x :: x in SameDay(existing, prefix) <==> x in existing && StartsWith(x, prefix)
  {
    forall x ensures Like(prefix + "%", x) <==> StartsWith(x, prefix) { LikePrefix(prefix, x); }
  }

  /** One past the sequence of the greatest selected number in text order, `-001` when there is none. */
  function AllocateAsWritten(prefix: string, existing: seq<string>): (r: Result<string>)
    ensures r.Ok? ==> StartsWith(r.value, prefix)
    ensures r.Err? ==> r.error == Crash("ValueError")
  {
    var same := SameDay(existing, prefix);
    if |same| == 0 then
      Ok(Format(prefix, 1))
    else
      var piece := LastPiece(LexMax(same), '-');
      LastPieceFree(LexMax(same), '-');
      assert |piece| == 0 || piece[0] != '-';
      match ParseInt(piece)
      case None => Err(Crash("ValueError"))
      case Some(last) => Ok(Format(prefix, last + 1))
  }

  /** The allocator as written, for today's prefix. */
  function NextJobNumberAsWritten(today: Date, existing: seq<string>): (r: Result<string>)
    ensures r.Ok? ==> StartsWith(r.value, DayPrefix(today))
    ensures r.Err? ==> r.error == Crash("ValueError")
  {
    AllocateAsWritten(DayPrefix(today), existing)
  }

  /** The sequence number a job number carries: `int()` of its last `-` piece, when that is digits. */
  function SeqOf(x: string): Option<nat> {
    ParseNat(LastPiece(x, '-'))
  }

  /** The greatest sequence number among the given job numbers, 0 when none carries one. */
  function MaxSeq(xs: seq<string>): (m: nat)
    ensures forall x :: x in xs && SeqOf(x).Some? ==> SeqOf(x).value <= m
    ensures m == 0 || exists x :: x in xs && SeqOf(x) == Some(m)
    decreases |xs|
  {
    if |xs| == 0 then 0
    else
      var rest := MaxSeq(xs[1..]);
      assert forall x :: x in xs <==> x == xs[0] || x in xs[1..];
      match SeqOf(xs[0])
      case Some(n) => if n > rest then n else rest
      case None => rest
  }

  /** One past the numerically greatest selected sequence. */
  function Allocate(prefix: string, existing: seq<string>): (r: string)
    ensures StartsWith(r, prefix)
  {
    Format(prefix, MaxSeq(SameDay(existing, prefix)) + 1)
  }

  /** The allocator as intended, for today's prefix; the submission flow uses this one. */
  function NextJobNumber(today: Date, existing: seq<string>): (r: string)
    ensures StartsWith(r, DayPrefix(today))
  {
    Allocate(DayPrefix(today), existing)
  }

  /** The text after the last `-` of a formatted number is the padded sequence, and reads back as it. */
  lemma SequenceRoundTrip(prefix: string, n: nat)
    requires Tagged(prefix)
    ensures LastPiece(Format(prefix, n), '-') == ZeroPad(n, 3)
    ensures SeqOf(Format(prefix, n)) == Some(n)
  {
    FormatShape(prefix, ZeroPad(n, 3));
  }

  /** A tagged prefix followed by digits: the digits are the last `-` piece. */
  lemma FormatShape(prefix: string, d: string)
    requires Tagged(prefix) && AllDigits(d)
    ensures LastPiece(prefix + d, '-') == d
  {
    assert '-' !in d by {
      forall i | 0 <= i < |d| ensures d[i] != '-' { assert IsDigit(d[i]); }
    }
    var q := prefix[..|prefix| - 1];
    assert prefix == q + ['-'];
    assert prefix + d == q + ['-'] + d;
    LastPieceAfter(q, '-', d);
  }

  /** The suffix has exactly three digits up to 999 and one digit more per power of ten beyond. */
  lemma SuffixWidth(n: nat)
    ensures n <= 999 ==> |ZeroPad(n, 3)| == 3
    ensures n >= 1000 ==> |ZeroPad(n, 3)| == |NatToString(n)| >= 4
  {
    NatToStringLength(n, 3);
    assert Pow10(3) == 1000;
  }

  lemma {:induction false} SameDayNone(existing: seq<string>, prefix: string)
    requires forall x :: x in existing ==> !Like(prefix + "%", x)
    ensures SameDay(existing, prefix) == []
    decreases |existing|
  {
    if |existing| > 0 {
      assert forall x :: x in existing[1..] ==> x in existing;
      SameDayNone(existing[1..], prefix);
    }
  }

  /** The first number for a prefix is `-001`, under both allocators. */
  lemma FirstOfTheDay(prefix: string, existing: seq<string>)
    requires Literal(prefix)
    requires forall x :: x in existing ==> !StartsWith(x, prefix)
    ensures AllocateAsWritten(prefix, existing) == Ok(prefix + "001")
    ensures Allocate(prefix, existing) == prefix + "001"
  {
    forall x | x in existing ensures !Like(prefix + "%", x) { LikePrefix(prefix, x); }
    SameDayNone(existing, prefix);
    assert NatToString(1) == "1";
    assert Zeros(2) == "00";
    assert ZeroPad(1, 3) == Zeros(2) + "1";
    assert Format(prefix, 1) == prefix + "001";
  }

  /** The intended allocator never hands out a number that is already stored, and it outgrows the day's. */
  lemma AllocateFresh(prefix: string, existing: seq<string>)
    requires Tagged(prefix)
    ensures Allocate(prefix, existing) !in existing
    ensures SeqOf(Allocate(prefix, existing)).Some?
    ensures forall x :: x in existing && StartsWith(x, prefix) && SeqOf(x).Some? ==>
              SeqOf(x).value < SeqOf(Allocate(prefix, existing)).value
  {
    var same := SameDay(existing, prefix);
    var m := MaxSeq(same);
    SequenceRoundTrip(prefix, m + 1);
    assert SeqOf(Allocate(prefix, existing)) == Some(m + 1);
    SameDayMembers(existing, prefix);
    forall x | x in existing && StartsWith(x, prefix) && SeqOf(x).Some? ensures SeqOf(x).value <= m {
      assert x in same;
    }
  }

  /** As written, the result follows the number that is greatest in text order among the selected. */
  lemma AsWrittenTakesGreatest(prefix: string, existing: seq<string>, m: string)
    requires Literal(prefix)
    requires m in existing && StartsWith(m, prefix)
    requires forall x :: x in existing && StartsWith(x, prefix) ==> LexLe(x, m)
    ensures ParseInt(LastPiece(m, '-')).None? ==> AllocateAsWritten(prefix, existing) == Err(Crash("ValueError"))
    ensures ParseInt(LastPiece(m, '-')).Some? ==>
              ParseInt(LastPiece(m, '-')).value >= 0 &&
              AllocateAsWritten(prefix, existing) == Ok(Format(prefix, ParseInt(LastPiece(m, '-')).value + 1))
  {
    PieceNotNegative(m);
    GreatestIsLexMax(prefix, existing, m);
  }

  lemma PieceNotNegative(m: string)
    ensures ParseInt(LastPiece(m, '-')).Some? ==> ParseInt(LastPiece(m, '-')).value >= 0
  {
    var piece := LastPiece(m, '-');
    LastPieceFree(m, '-');
    assert |piece| == 0 || piece[0] != '-';
  }

  lemma GreatestIsLexMax(prefix: string, existing: seq<string>, m: string)
    requires Literal(prefix)
    requires m in existing && StartsWith(m, prefix)
    requires forall x :: x in existing && StartsWith(x, prefix) ==> LexLe(x, m)
    ensures |SameDay(existing, prefix)| > 0 && LexMax(SameDay(existing, prefix)) == m
  {
    var same := SameDay(existing, prefix);
    SameDayMembers(existing, prefix);
    assert m in same;
    LexAntisym(LexMax(same), m);
  }

  /** Two lists with the same members have the same greatest sequence number. */
  lemma MaxSeqMembers(s1: seq<string>, s2: seq<string>)
    requires forall x :: x in s1 <==> x in s2
    ensures MaxSeq(s1) == MaxSeq(s2)
  {
    var m1, m2 := MaxSeq(s1), MaxSeq(s2);
    if m1 != 0 { var x :| x in s1 && SeqOf(x) == Some(m1); assert x in s2; }
    if m2 != 0 { var x :| x in s2 && SeqOf(x) == Some(m2); assert x in s1; }
  }

  /** Only numbers with the prefix matter: other dates, and which company a number belongs to, do not. */
  lemma OnlySameDayMatters(prefix: string, e1: seq<string>, e2: seq<string>)
    requires Literal(prefix)
    requires forall x :: StartsWith(x, prefix) ==> (x in e1 <==> x in e2)
    ensures AllocateAsWritten(prefix, e1) == AllocateAsWritten(prefix, e2)
    ensures Allocate(prefix, e1) == Allocate(prefix, e2)
  {
    SameDaySameMembers(prefix, e1, e2);
    SameSelectionAsWritten(prefix, e1, e2);
    MaxSeqMembers(SameDay(e1, prefix), SameDay(e2, prefix));
  }

  lemma SameSelectionAsWritten(prefix: string, e1: seq<string>, e2: seq<string>)
    requires forall x :: x in SameDay(e1, prefix) <==> x in SameDay(e2, prefix)
    ensures AllocateAsWritten(prefix, e1) == AllocateAsWritten(prefix, e2)
  {
    var s1, s2 := SameDay(e1, prefix), SameDay(e2, prefix);
    if |s1| > 0 {
      LexMaxUnique(s1, s2);
    }
  }

  lemma SameDaySameMembers(prefix: string, e1: seq<string>, e2: seq<string>)
    requires Literal(prefix)
    requires forall x :: StartsWith(x, prefix) ==> (x in e1 <==> x in e2)
    ensures forall x :: x in SameDay(e1, prefix) <==> x in SameDay(e2, prefix)
  {
    SameDayMembers(e1, prefix);
    SameDayMembers(e2, prefix);
  }

  /** Every number with the prefix has a three-digit sequence: the first 999 numbers of a day. */
  predicate ThreeDigitDay(prefix: string, existing: seq<string>) {
    forall x :: x in existing && StartsWith(x, prefix) ==> |x| == |prefix| + 3 && AllDigits(x[|prefix|..])
  }

  /** On such a day each selected number is the prefix followed by its three-digit sequence. */
  lemma ThreeDigitMember(prefix: string, x: string)
    requires Tagged(prefix) && StartsWith(x, prefix) && |x| > |prefix| && AllDigits(x[|prefix|..])
    ensures x == prefix + x[|prefix|..]
    ensures SeqOf(x) == Some(Value(x[|prefix|..]))
  {
    var d := x[|prefix|..];
    assert x == prefix + d;
    FormatShape(prefix, d);
  }

  /** Between two selected three-digit numbers, text order is the order of their sequences. */
  lemma ThreeDigitOrder(prefix: string, x: string, g: string)
    requires Tagged(prefix)
    requires StartsWith(x, prefix) && |x| == |prefix| + 3 && AllDigits(x[|prefix|..])
    requires StartsWith(g, prefix) && |g| == |prefix| + 3 && AllDigits(g[|prefix|..])
    requires LexLe(x, g)
    ensures SeqOf(x) == Some(Value(x[|prefix|..])) && SeqOf(g) == Some(Value(g[|prefix|..]))
    ensures Value(x[|prefix|..]) <= Value(g[|prefix|..])
  {
    ThreeDigitMember(prefix, x);
    ThreeDigitMember(prefix, g);
    LexCommonPrefix(prefix, x[|prefix|..], g[|prefix|..]);
    LexIsNumeric(x[|prefix|..], g[|prefix|..]);
  }

  /** On such a day the greatest number in text order carries the greatest sequence. */
  lemma ThreeDigitGreatest(prefix: string, same: seq<string>)
    requires Tagged(prefix) && |same| > 0
    requires forall x :: x in same ==> StartsWith(x, prefix) && |x| == |prefix| + 3 && AllDigits(x[|prefix|..])
    ensures SeqOf(LexMax(same)) == Some(MaxSeq(same))
  {
    var g := LexMax(same);
    assert g in same;
    LexRefl(g);
    ThreeDigitOrder(prefix, g, g);
    var vg := Value(g[|prefix|..]);
    assert SeqOf(g) == Some(vg);
    var m := MaxSeq(same);
    assert vg <= m;
    if m != 0 {
      var x :| x in same && SeqOf(x) == Some(m);
      assert LexLe(x, g);
      ThreeDigitOrder(prefix, x, g);
      assert m <= vg;
    }
    assert vg == m;
    assert SeqOf(LexMax(same)) == Some(m);
  }

  /** On such a day `int()` of the last piece of the text-greatest number is the greatest sequence. */
  lemma ThreeDigitParse(prefix: string, same: seq<string>)
    requires Tagged(prefix) && |same| > 0
    requires forall x :: x in same ==> StartsWith(x, prefix) && |x| == |prefix| + 3 && AllDigits(x[|prefix|..])
    ensures ParseInt(LastPiece(LexMax(same), '-')) == Some(MaxSeq(same) as int)
  {
    ThreeDigitGreatest(prefix, same);
    var piece := LastPiece(LexMax(same), '-');
    assert ParseNat(piece) == Some(MaxSeq(same));
  }

  /** While every number of the day has three digits, the code computes the intended number, which is fresh. */
  lemma AsWrittenFreshOnThreeDigitDays(prefix: string, existing: seq<string>)
    requires Tagged(prefix) && ThreeDigitDay(prefix, existing)
    ensures AllocateAsWritten(prefix, existing) == Ok(Allocate(prefix, existing))
    ensures AllocateAsWritten(prefix, existing).value !in existing
  {
    if |SameDay(existing, prefix)| > 0 {
      AsWrittenAgrees(prefix, existing);
    }
    AllocateFresh(prefix, existing);
  }

  lemma AsWrittenAgrees(prefix: string, existing: seq<string>)
    requires Tagged(prefix) && ThreeDigitDay(prefix, existing) && |SameDay(existing, prefix)| > 0
    ensures AllocateAsWritten(prefix, existing) == Ok(Allocate(prefix, existing))
  {
    var same := SameDay(existing, prefix);
    SameDayMembers(existing, prefix);
    forall x | x in same ensures StartsWith(x, prefix) && |x| == |prefix| + 3 && AllDigits(x[|prefix|..]) {
      assert x in existing;
    }
    ThreeDigitParse(prefix, same);
    AsWrittenTakesGreatest(prefix, existing, LexMax(same));
  }

  lemma Thousand()
    ensures ZeroPad(1000, 3) == "1000" && ZeroPad(1001, 3) == "1001"
  {
    assert NatToString(1) == "1";
    assert NatToString(10) == NatToString(1) + "0";
    assert NatToString(100) == NatToString(10) + "0";
    assert NatToString(1000) == NatToString(100) + "0";
    assert NatToString(1001) == NatToString(100) + "1";
  }

  lemma SmallValues()
    ensures AllDigits("999") && Value("999") == 999
    ensures AllDigits("1000") && Value("1000") == 1000
  {
    assert Value("9") == 9;
    assert Value("99") == 9 * 10 + Value("9");
    assert Value("999") == 9 * 100 + Value("99");
    assert Value("0") == 0;
    assert Value("00") == Value("0");
    assert Value("000") == Value("00");
    assert Value("1000") == 1000 + Value("000");
  }

  /** As written, once `-999` and `-1000` are both stored it hands out `-1000` again. */
  lemma AsWrittenRepeatsAfter999(prefix: string)
    requires Tagged(prefix)
    ensures AllocateAsWritten(prefix, [prefix + "999", prefix + "1000"]) == Ok(prefix + "1000")
  {
    var a, b := prefix + "999", prefix + "1000";
    assert a[..|prefix|] == prefix && b[..|prefix|] == prefix;
    LexCommonPrefix(prefix, "1000", "999");
    assert LexLe("1000", "999");
    LexRefl(a);
    SmallValues();
    FormatShape(prefix, "999");
    assert ParseInt("999") == Some(999);
    AsWrittenTakesGreatest(prefix, [a, b], a);
    Thousand();
  }

  lemma MaxSeqAfter999(prefix: string)
    requires Tagged(prefix)
    ensures MaxSeq([prefix + "999", prefix + "1000"]) == 1000
  {
    var a, b := prefix + "999", prefix + "1000";
    SmallValues();
    FormatShape(prefix, "999");
    FormatShape(prefix, "1000");
    assert SeqOf(b) == Some(1000) && SeqOf(a) == Some(999);
    assert [a, b][1..] == [b] && [b][1..] == [];
    assert MaxSeq([b]) == 1000;
  }

  /** The intended allocator gives `-1001` for the same table. */
  lemma IntendedAfter999(prefix: string)
    requires Tagged(prefix)
    ensures Allocate(prefix, [prefix + "999", prefix + "1000"]) == prefix + "1001"
  {
    var e := [prefix + "999", prefix + "1000"];
    assert e[0][..|prefix|] == prefix && e[1][..|prefix|] == prefix;
    SameDayMembers(e, prefix);
    MaxSeqMembers(SameDay(e, prefix), e);
    MaxSeqAfter999(prefix);
    Thousand();
  }
}
