/** Cluster metadata kept in the name of a Capella project. */
module MetaCodec {
  import Decimal
  import opened Options
  import opened Text
  import Uuid

  // ----- expiry times -----

  /** A moment in UTC. */
  datatype Moment = Moment(year: nat, month: nat, day: nat, hour: nat, minute: nat, second: nat, nanos: nat)

  predicate IsLeap(year: nat) {
    year % 4 == 0 && (year % 100 != 0 || year % 400 == 0)
  }

  function DaysIn(year: nat, month: nat): nat {
    if month == 2 then (if IsLeap(year) then 29 else 28)
    else if month in {4, 6, 9, 11} then 30
    else 31
  }

  predicate ValidMoment(t: Moment) {
    && 1 <= t.month <= 12 && 1 <= t.day <= DaysIn(t.year, t.month)
    && t.hour < 24 && t.minute < 60 && t.second < 60 && t.nanos < 1_000_000_000
  }

  /** The text shows the moment as year, month, day, a dash, hour, minute and second. */
  ghost predicate Reads(s: string, t: Moment) {
    && |s| == 15 && s[8] == '-' && (forall i | 0 <= i < 15 && i != 8 :: '0' <= s[i] <= '9')
    && t.year == 1000 * Figure(s, 0) + 100 * Figure(s, 1) + 10 * Figure(s, 2) + Figure(s, 3)
    && t.month == 10 * Figure(s, 4) + Figure(s, 5) && t.day == 10 * Figure(s, 6) + Figure(s, 7)
    && t.hour == 10 * Figure(s, 9) + Figure(s, 10) && t.minute == 10 * Figure(s, 11) + Figure(s, 12)
    && t.second == 10 * Figure(s, 13) + Figure(s, 14)
  }

  ghost function Figure(s: string, i: nat): int
    requires i < |s|
  {
    s[i] as int - '0' as int
  }

  /** The layout 20060102-150405: the fraction of a second is dropped. */
  function FormatMoment(t: Moment): string {
    JoinFields(Decimal.Padded(t.year, 4), Decimal.Padded(t.month, 2), Decimal.Padded(t.day, 2),
         Decimal.Padded(t.hour, 2), Decimal.Padded(t.minute, 2), Decimal.Padded(t.second, 2))
  }

  function ReadMoment(y: string, mo: string, d: string, h: string, mi: string, se: string): (r: Option<Moment>)
    requires Decimal.AllDigits(y) && Decimal.AllDigits(mo) && Decimal.AllDigits(d)
    requires Decimal.AllDigits(h) && Decimal.AllDigits(mi) && Decimal.AllDigits(se)
    ensures r.Some? ==> ValidMoment(r.value) && r.value.nanos == 0 && r.value.year == Decimal.Value(y)
  {
    var t := Moment(Decimal.Value(y), Decimal.Value(mo), Decimal.Value(d),
                    Decimal.Value(h), Decimal.Value(mi), Decimal.Value(se), 0);
    if ValidMoment(t) then Some(t) else None
  }

  function ParseMoment(s: string): (r: Option<Moment>)
    ensures r.Some? ==> ValidMoment(r.value) && r.value.nanos == 0 && r.value.year < 10_000
  {
    if |s| != 15 || s[8] != '-' then None
    else if !(Decimal.AllDigits(s[..8]) && Decimal.AllDigits(s[9..])) then None
    else
      DigitParts(s);
      ValueBound(s[..4]);
      ReadMoment(s[..4], s[4..6], s[6..8], s[9..11], s[11..13], s[13..15])
  }

  lemma DigitParts(s: string)
    requires |s| == 15 && Decimal.AllDigits(s[..8]) && Decimal.AllDigits(s[9..])
    ensures Decimal.AllDigits(s[..4]) && Decimal.AllDigits(s[4..6]) && Decimal.AllDigits(s[6..8])
    ensures Decimal.AllDigits(s[9..11]) && Decimal.AllDigits(s[11..13]) && Decimal.AllDigits(s[13..15])
  {
  }

  lemma ValueBound(s: string)
    requires |s| == 4 && Decimal.AllDigits(s)
    ensures Decimal.Value(s) < 10_000
  {
    assert s[..3][..2] == s[..2] && s[..2][..1] == s[..1];
    assert forall i | 0 <= i < 4 :: s[i] in s;
    assert Decimal.Value(s[..1]) < 10;
    assert Decimal.Value(s[..2]) < 100;
    assert Decimal.Value(s[..3]) < 1000;
  }

  function JoinFields(y: string, mo: string, d: string, h: string, mi: string, se: string): string {
    y + mo + d + "-" + h + mi + se
  }

  lemma FieldSlices(y: string, mo: string, d: string, h: string, mi: string, se: string)
    requires |y| == 4 && |mo| == |d| == |h| == |mi| == |se| == 2
    ensures var s := JoinFields(y, mo, d, h, mi, se);
            && |s| == 15 && s[8] == '-' && s[..8] == y + mo + d && s[9..] == h + mi + se
            && s[..4] == y && s[4..6] == mo && s[6..8] == d && s[9..11] == h && s[11..13] == mi && s[13..15] == se
  {
  }

  lemma DigitsConcat(a: string, b: string)
    ensures Decimal.AllDigits(a + b) <==> Decimal.AllDigits(a) && Decimal.AllDigits(b)
  {
  }

  lemma ParseJoined(y: string, mo: string, d: string, h: string, mi: string, se: string)
    requires |y| == 4 && |mo| == |d| == |h| == |mi| == |se| == 2
    requires Decimal.AllDigits(y) && Decimal.AllDigits(mo) && Decimal.AllDigits(d)
    requires Decimal.AllDigits(h) && Decimal.AllDigits(mi) && Decimal.AllDigits(se)
    ensures ParseMoment(JoinFields(y, mo, d, h, mi, se)) == ReadMoment(y, mo, d, h, mi, se)
  {
    FieldSlices(y, mo, d, h, mi, se);
    DigitsConcat(y, mo);
    DigitsConcat(y + mo, d);
    DigitsConcat(h, mi);
    DigitsConcat(h + mi, se);
  }

  lemma UnderscoreFree(y: string, mo: string, d: string, h: string, mi: string, se: string)
    requires Decimal.AllDigits(y) && Decimal.AllDigits(mo) && Decimal.AllDigits(d)
    requires Decimal.AllDigits(h) && Decimal.AllDigits(mi) && Decimal.AllDigits(se)
    ensures '_' !in JoinFields(y, mo, d, h, mi, se)
  {
  }

  lemma FieldWidths(t: Moment)
    requires ValidMoment(t)
    ensures |Decimal.Padded(t.month, 2)| == |Decimal.Padded(t.day, 2)| == 2
    ensures |Decimal.Padded(t.hour, 2)| == |Decimal.Padded(t.minute, 2)| == |Decimal.Padded(t.second, 2)| == 2
    ensures |Decimal.Padded(t.year, 4)| == 4 <==> t.year < 10_000
  {
    TwoDigits(t.month);
    TwoDigits(t.day);
    TwoDigits(t.hour);
    TwoDigits(t.minute);
    TwoDigits(t.second);
    FourDigits(t.year);
  }

  lemma LongYearFails(t: Moment)
    requires ValidMoment(t) && t.year >= 10_000
    ensures ParseMoment(FormatMoment(t)) == None
  {
    FieldWidths(t);
  }

  lemma ShortYearParses(t: Moment)
    requires ValidMoment(t) && t.year < 10_000
    ensures ParseMoment(FormatMoment(t)) == Some(t.(nanos := 0))
  {
    FieldWidths(t);
    ParseJoined(Decimal.Padded(t.year, 4), Decimal.Padded(t.month, 2), Decimal.Padded(t.day, 2),
                Decimal.Padded(t.hour, 2), Decimal.Padded(t.minute, 2), Decimal.Padded(t.second, 2));
  }

  /** Formatting and parsing keeps a moment if and only if it is a whole second of a year with at most four digits. */
  lemma MomentRoundTrip(t: Moment)
    requires ValidMoment(t)
    ensures ParseMoment(FormatMoment(t)) == Some(t) <==> t.year < 10_000 && t.nanos == 0
    ensures t.year < 10_000 ==> ParseMoment(FormatMoment(t)) == Some(t.(nanos := 0))
    ensures '_' !in FormatMoment(t)
  {
    if t.year < 10_000 { ShortYearParses(t); } else { LongYearFails(t); }
    UnderscoreFree(Decimal.Padded(t.year, 4), Decimal.Padded(t.month, 2), Decimal.Padded(t.day, 2),
                   Decimal.Padded(t.hour, 2), Decimal.Padded(t.minute, 2), Decimal.Padded(t.second, 2));
  }

  /** A day of the Gregorian calendar and a time of day. */
  ghost predicate OnTheCalendar(t: Moment) {
    && t.month in {1, 2, 3, 4, 5, 6, 7, 8, 9, 10, 11, 12} && 1 <= t.day <= 31
    && (t.month in {4, 6, 9, 11} ==> t.day <= 30)
    && (t.month == 2 ==> t.day <= 28 || (t.day == 29 && t.year % 4 == 0 && (t.year % 100 == 0 ==> t.year % 400 == 0)))
    && t.hour <= 23 && t.minute <= 59 && t.second <= 59 && t.nanos <= 999_999_999
  }

  lemma ValidMomentMeans(t: Moment)
    ensures ValidMoment(t) <==> OnTheCalendar(t)
  {
  }

  lemma FieldsRead(s: string)
    requires |s| == 15 && s[8] == '-' && Decimal.AllDigits(s[..8]) && Decimal.AllDigits(s[9..])
    ensures Decimal.AllDigits(s[..4]) && Decimal.AllDigits(s[4..6]) && Decimal.AllDigits(s[6..8])
    ensures Decimal.AllDigits(s[9..11]) && Decimal.AllDigits(s[11..13]) && Decimal.AllDigits(s[13..15])
    ensures Reads(s, Moment(Decimal.Value(s[..4]), Decimal.Value(s[4..6]), Decimal.Value(s[6..8]),
                            Decimal.Value(s[9..11]), Decimal.Value(s[11..13]), Decimal.Value(s[13..15]), 0))
  {
    DigitParts(s);
    Decimal.ValueOfFour(s[..4]);
    Decimal.ValueOfTwo(s[4..6]);
    Decimal.ValueOfTwo(s[6..8]);
    Decimal.ValueOfTwo(s[9..11]);
    Decimal.ValueOfTwo(s[11..13]);
    Decimal.ValueOfTwo(s[13..15]);
  }

  /** Exactly the texts that show a moment of the calendar parse, and to that moment. */
  lemma MomentText(s: string, t: Moment)
    ensures ParseMoment(s) == Some(t) <==> Reads(s, t) && OnTheCalendar(t) && t.nanos == 0
  {
    ValidMomentMeans(t);
    if |s| == 15 && s[8] == '-' {
      if Decimal.AllDigits(s[..8]) && Decimal.AllDigits(s[9..]) {
        FieldsRead(s);
      } else {
        assert !Reads(s, t);
      }
    }
  }

  /** What is printed shows the moment. */
  lemma MomentShown(t: Moment)
    requires ValidMoment(t) && t.year < 10_000
    ensures Reads(FormatMoment(t), t)
  {
    ShortYearParses(t);
    MomentText(FormatMoment(t), t.(nanos := 0));
  }

  lemma TwoDigits(n: nat)
    requires n < 100
    ensures |Decimal.Padded(n, 2)| == 2
  {
    assert Decimal.Pow10(2) == 100;
    Decimal.PaddedWidth(n, 2);
  }

  lemma FourDigits(n: nat)
    ensures |Decimal.Padded(n, 4)| == 4 <==> n < 10_000
  {
    assert Decimal.Pow10(2) == 100;
    assert Decimal.Pow10(4) == 100 * Decimal.Pow10(2);
    Decimal.PaddedWidth(n, 4);
  }

  // ----- metadata -----

  datatype MetaData = MetaData(id: Uuid.Id, expiry: Moment, purpose: string)

  /** A name may belong to somebody else, which is no error, or be one of ours and broken. */
  datatype ParseResult = NotOurs | Malformed | Parsed(meta: MetaData)

  const MAGIC: string := "cbdc2"

  function Parts(magic: string, id: string, expiry: string, purpose: string): seq<string> {
    [magic, id, expiry] + if purpose != "" then [purpose] else []
  }

  function Glue(magic: string, id: string, expiry: string, purpose: string): string {
    var tail := if purpose != "" then expiry + ['_'] + purpose else expiry;
    magic + ['_'] + (id + ['_'] + tail)
  }

  function Print(m: MetaData): string {
    Glue(MAGIC, Uuid.ShortString(m.id), FormatMoment(m.expiry), m.purpose)
  }

  function Parse(s: string): ParseResult {
    var parts := SplitN(s, '_', 4);
    if |parts| < 3 then NotOurs
    else if parts[0] != MAGIC then NotOurs
    else ParseFields(parts[1], parts[2], if |parts| >= 4 then parts[3] else "")
  }

  function ParseFields(idText: string, expiryText: string, purpose: string): ParseResult {
    var id := Uuid.ParseId(idText);
    if id.None? then Malformed
    else
      var expiry := ParseMoment(expiryText);
      if expiry.None? then Malformed else Parsed(MetaData(id.value, expiry.value, purpose))
  }

  /** Splitting undoes gluing: only the purpose may contain the separator. */
  lemma GlueRoundTrip(magic: string, id: string, expiry: string, purpose: string)
    requires '_' !in magic && '_' !in id && '_' !in expiry
    ensures SplitN(Glue(magic, id, expiry, purpose), '_', 4) == Parts(magic, id, expiry, purpose)
  {
    if purpose != "" {
      SplitFour(magic, id, expiry, purpose, '_');
    } else {
      SplitThree(magic, id, expiry, '_');
    }
  }

  /** Parsing what was glued from parts without underscores parses the parts. */
  lemma ParseGlued(magic: string, id: string, expiry: string, purpose: string)
    requires '_' !in magic && '_' !in id && '_' !in expiry && magic == MAGIC
    ensures Parse(Glue(magic, id, expiry, purpose)) == ParseFields(id, expiry, purpose)
  {
    GlueRoundTrip(magic, id, expiry, purpose);
  }

  lemma IndexOfIs(s: string, sep: char, i: nat)
    requires i < |s| && s[i] == sep && sep !in s[..i]
    ensures IndexOf(s, sep) == i
  {
    assert s == s[..i] + [sep] + s[i + 1..];
    IndexOfFirst(s[..i], s[i + 1..], sep);
  }

  lemma ThreeParts(s: string)
    ensures |SplitN(s, '_', 4)| >= 3 <==> '_' in s && '_' in s[IndexOf(s, '_') + 1..]
  {
  }

  /** A name is taken for somebody else's exactly if it does not start with the mark and two more parts. */
  lemma NotOursExactly(s: string)
    ensures Parse(s).NotOurs? <==> !("cbdc2_" <= s && '_' in s[6..])
  {
    ThreeParts(s);
    if "cbdc2_" <= s {
      assert s[..5] == "cbdc2" && s[5] == '_';
      IndexOfIs(s, '_', 5);
    }
    if !Parse(s).NotOurs? {
      var i := IndexOf(s, '_');
      assert s == s[..i] + ['_'] + s[i + 1..];
    }
  }

  /** A name of ours is malformed exactly if its identifier or its expiry does not parse; everything after the third
      underscore is the purpose. */
  lemma OursExactly(id: string, expiry: string, purpose: string, more: string)
    requires '_' !in id && '_' !in expiry
    requires more == "_" + purpose || (more == "" && purpose == "")
    ensures var r, i, t := Parse("cbdc2" + ("_" + id) + ("_" + expiry) + more), Uuid.ParseId(id), ParseMoment(expiry);
            r == if i.None? || t.None? then Malformed else Parsed(MetaData(i.value, t.value, purpose))
  {
    if more == "" || purpose != "" {
      GlueText(MAGIC, id, expiry, purpose);
      ParseGlued(MAGIC, id, expiry, purpose);
    } else {
      SplitFour(MAGIC, id, expiry, "", '_');
      Regrouped(MAGIC, id, expiry, more);
      assert expiry + more == expiry + ['_'] + "";
    }
  }

  lemma ParsePrinted(m: MetaData)
    requires ValidMoment(m.expiry)
    ensures Parse(Print(m)) == ParseFields(Uuid.ShortString(m.id), FormatMoment(m.expiry), m.purpose)
  {
    var id, expiry := Uuid.ShortString(m.id), FormatMoment(m.expiry);
    assert '_' !in id by { Uuid.FormsRoundTrip(m.id); }
    assert '_' !in expiry by { MomentRoundTrip(m.expiry); }
    ParseGlued(MAGIC, id, expiry, m.purpose);
  }

  lemma GlueText(magic: string, id: string, expiry: string, purpose: string)
    ensures Glue(magic, id, expiry, purpose)
            == magic + ("_" + id) + ("_" + expiry) + if purpose == "" then "" else "_" + purpose
  {
    var more := if purpose == "" then "" else "_" + purpose;
    var tail := if purpose != "" then expiry + ['_'] + purpose else expiry;
    assert tail == expiry + more;
    Regrouped(magic, id, expiry, more);
  }

  lemma Regrouped(magic: string, id: string, expiry: string, more: string)
    ensures magic + ['_'] + (id + ['_'] + (expiry + more)) == magic + ("_" + id) + ("_" + expiry) + more
  {
  }

  /** The text of a name: a mark, the short form of the identifier, the expiry and the purpose, if there is one. */
  lemma PrintedText(m: MetaData) returns (expiry: string)
    requires ValidMoment(m.expiry) && m.expiry.year < 10_000
    ensures Reads(expiry, m.expiry)
    ensures Print(m) == "cbdc2" + ("_" + Uuid.ShortString(m.id)) + ("_" + expiry)
                        + if m.purpose == "" then "" else "_" + m.purpose
  {
    MomentShown(m.expiry);
    expiry := FormatMoment(m.expiry);
    GlueText(MAGIC, Uuid.ShortString(m.id), expiry, m.purpose);
  }

  /** Parsing a printed name gives the metadata back - any identifier, any purpose, underscores included - if and only
      if the expiry is a whole second of a year with at most four digits. */
  lemma PrintRoundTrip(m: MetaData)
    requires ValidMoment(m.expiry)
    ensures Parse(Print(m)) == Parsed(m) <==> m.expiry.year < 10_000 && m.expiry.nanos == 0
    ensures m.expiry.year < 10_000 ==> Parse(Print(m)) == Parsed(m.(expiry := m.expiry.(nanos := 0)))
  {
    ParsePrinted(m);
    assert Uuid.ParseId(Uuid.ShortString(m.id)) == Some(m.id) by { Uuid.FormsRoundTrip(m.id); }
    MomentRoundTrip(m.expiry);
  }

  /** Different metadata never share a name. */
  lemma PrintInjective(a: MetaData, b: MetaData)
    requires ValidMoment(a.expiry) && ValidMoment(b.expiry) && Print(a) == Print(b)
    requires a.expiry.year < 10_000 && b.expiry.year < 10_000 && a.expiry.nanos == b.expiry.nanos == 0
    ensures a == b
  {
    PrintRoundTrip(a);
    PrintRoundTrip(b);
  }

  /** Every parsed name carries a real moment, so it prints to a name that parses to the same metadata: printing
      normalizes names. */
  lemma ParseThenPrint(s: string)
    requires Parse(s).Parsed?
    ensures ValidMoment(Parse(s).meta.expiry) && Parse(Print(Parse(s).meta)) == Parse(s)
  {
    PrintRoundTrip(Parse(s).meta);
  }
}
