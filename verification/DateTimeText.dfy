/**
 Date-times as text: the printer of `crates/sql/src/datetime.rs` and the reader of
 `crates/redlinedb/src/value_conv.rs`, which accepts a restricted form of the date-time of
 section 5.6 of RFC 3339.

 Texts are sequences of characters; the source indexes bytes, which reads alike (`BytesReadAlike`).
 */
module DateTimeText {
  import opened Machine
  import opened Chars
  import opened Decimal
  import opened Calendar
  import opened TextBytes

  // ---- Printing ------------------------------------------------------------------------------

  function FormatYear4(year: int): string {
    if year < 0 then "-" + Padded(-year, 4) else Padded(year, 4)
  }

  /** A year is its magnitude in four digits or as many as it takes, after a minus sign below zero. */
  lemma YearText(year: int)
    ensures var text := FormatYear4(year);
            var digits, n := if year < 0 && text != "" then text[1..] else text, if year < 0 then -year else year;
            && (year < 0 ==> text != "" && text[0] == '-')
            && AllDigits(digits) && Value(digits) == n
            && |digits| >= 4 && (|digits| > 4 ==> n >= 10_000)
  {
    var n := if year < 0 then -year else year;
    if year < 0 {
      assert ("-" + Padded(n, 4))[1..] == Padded(n, 4);
    }
    PaddedText(n);
  }

  lemma PaddedText(n: nat)
    ensures Value(Padded(n, 4)) == n && |Padded(n, 4)| >= 4 && (|Padded(n, 4)| > 4 ==> n >= 10_000)
  {
    hide Shortest, Fixed;
    assert Pow10(4) == 10_000;
    if n < Pow10(4) {
      PaddedIsFixed(n, 4);
      ValueOfFixed(n, 4);
    } else {
      ValueOfShortest(n);
      FixedOfValue(Shortest(n));
      if |Shortest(n)| <= 4 {
        Pow10Monotone(|Shortest(n)|, 4);
      }
    }
  }

  function FormatDate(t: DateTime): string
    requires t.month >= 0 && t.day >= 0
  {
    FormatYear4(t.year) + "-" + Padded(t.month, 2) + "-" + Padded(t.day, 2)
  }

  function FormatTime(t: DateTime): string
    requires t.hour >= 0 && t.minute >= 0 && t.second >= 0
  {
    Padded(t.hour, 2) + ":" + Padded(t.minute, 2) + ":" + Padded(t.second, 2)
  }

  function FormatDateTime(t: DateTime): string
    requires ValidDateTime(t)
  {
    FormatDate(t) + " " + FormatTime(t)
  }

  // ---- Reading -------------------------------------------------------------------------------

  function ParseFixed(v: string): Option<nat> {
    if v != "" && AllDigits(v) then Some(Value(v)) else None
  }

  function ParseZone(v: string): Option<int> {
    if v == "" || v == "Z" then Some(0)
    else if v[0] != '+' && v[0] != '-' then None
    else if |v| != 6 || v[3] != ':' then None
    else
      var sign: int := if v[0] == '+' then 1 else -1;
      match (ParseFixed(v[1..3]), ParseFixed(v[4..6]))
      case (Some(hour), Some(minute)) =>
        if hour > 23 || minute > 59 then None
        else Some(sign * (hour * 3_600 + minute * 60))
      case _ => None
  }

  /** The optional fraction: its microseconds and the text after it. */
  function ParseFraction(rest: string): Option<(nat, string)> {
    if rest == "" || rest[0] != '.' then Some((0, rest))
    else
      var afterDot := rest[1..];
      var n := DigitPrefix(afterDot);
      if n == 0 || n > 6 then None
      else Some((Value(afterDot[..n]) * Pow10(6 - n), afterDot[n..]))
  }

  function ParseTail(date: Date, secondOfDay: int, rest: string): Option<int> {
    match ParseFraction(rest)
    case None => None
    case Some((micros, zone)) =>
      match ParseZone(zone)
      case None => None
      case Some(offset) =>
        Some((DaysFromCivil(date) * 86_400 + secondOfDay - offset) * 1_000_000 + micros)
  }

  predicate HasSeparators(s: string) {
    |s| >= 19 && s[4] == '-' && s[7] == '-' && (s[10] == ' ' || s[10] == 'T') && s[13] == ':' && s[16] == ':'
  }

  function ParseTrimmed(s: string): Option<int> {
    if !HasSeparators(s) then None
    else
      match (ParseFixed(s[0..4]), ParseFixed(s[5..7]), ParseFixed(s[8..10]),
             ParseFixed(s[11..13]), ParseFixed(s[14..16]), ParseFixed(s[17..19]))
      case (Some(year), Some(month), Some(day), Some(hour), Some(minute), Some(second)) =>
        if !ValidDate(Date(year, month, day)) || hour > 23 || minute > 59 || second > 59 then None
        else ParseTail(Date(year, month, day), hour * 3_600 + minute * 60 + second, s[19..])
      case _ => None
  }

  /** `parse_datetime_text_micros_inner`. */
  function ParseMicros(text: string): Option<int> {
    ParseTrimmed(Trim(text))
  }

  /** The fraction branch of the source: a digit count, then one multiplication per missing digit. */
  method ReadFraction(rest: string) returns (r: Option<(nat, string)>)
    ensures r == ParseFraction(rest)
  {
    hide Value;
    if rest == "" || rest[0] != '.' {
      return Some((0, rest));
    }
    var afterDot := rest[1..];
    var digitsLen := 0;
    while digitsLen < |afterDot| && IsDigit(afterDot[digitsLen])
      invariant digitsLen <= |afterDot|
      invariant DigitPrefix(afterDot) == digitsLen + DigitPrefix(afterDot[digitsLen..])
    {
      assert afterDot[digitsLen..][1..] == afterDot[digitsLen + 1..];
      digitsLen := digitsLen + 1;
    }
    if digitsLen == 0 || digitsLen > 6 {
      return None;
    }
    var micros: nat := Value(afterDot[..digitsLen]);
    for i := digitsLen to 6
      invariant micros == Value(afterDot[..digitsLen]) * Pow10(i - digitsLen)
    {
      micros := micros * 10;
    }
    return Some((micros, afterDot[digitsLen..]));
  }

  // ---- What the reader accepts ---------------------------------------------------------------

  datatype Zone = Bare | Zulu | Offset(negative: bool, hour: nat, minute: nat)

  /** A text of the accepted form, taken apart. An empty fraction stands for no fraction. */
  datatype Stamp = Stamp(at: DateTime, separator: char, fraction: string, zone: Zone)

  predicate ValidZone(z: Zone) {
    z.Offset? ==> z.hour <= 23 && z.minute <= 59
  }

  predicate ValidStamp(st: Stamp) {
    && ValidDateTime(st.at) && 0 <= st.at.year <= 9999
    && (st.separator == ' ' || st.separator == 'T')
    && AllDigits(st.fraction) && |st.fraction| <= 6
    && ValidZone(st.zone)
  }

  function ZoneText(z: Zone): string {
    match z
    case Bare => ""
    case Zulu => "Z"
    case Offset(negative, hour, minute) =>
      (if negative then "-" else "+") + Fixed(hour, 2) + ":" + Fixed(minute, 2)
  }

  function ZoneSeconds(z: Zone): int {
    match z
    case Offset(negative, hour, minute) => (if negative then -1 else 1) * (3600 * hour + 60 * minute)
    case _ => 0
  }

  function FractionText(fraction: string): string {
    if fraction == "" then "" else "." + fraction
  }

  function FractionMicros(fraction: string): nat
    requires AllDigits(fraction) && |fraction| <= 6
  {
    Value(fraction) * Pow10(6 - |fraction|)
  }

  function Assemble(year: string, month: string, day: string, separator: char,
                    hour: string, minute: string, second: string, rest: string): string
  {
    year + "-" + month + "-" + day + [separator] + hour + ":" + minute + ":" + second + rest
  }

  function StampText(st: Stamp): string
    requires ValidStamp(st)
  {
    Assemble(Fixed(st.at.year, 4), Fixed(st.at.month, 2), Fixed(st.at.day, 2), st.separator,
             Fixed(st.at.hour, 2), Fixed(st.at.minute, 2), Fixed(st.at.second, 2),
             FractionText(st.fraction) + ZoneText(st.zone))
  }

  /** The instant a text denotes, by the other file's `to_unix`. */
  function StampMicros(st: Stamp): int
    requires ValidStamp(st)
  {
    (ToUnix(st.at) - ZoneSeconds(st.zone)) * 1_000_000 + FractionMicros(st.fraction)
  }

  // ---- Cutting an assembled text -------------------------------------------------------------

  lemma AssembledPieces(year: string, month: string, day: string, separator: char,
                        hour: string, minute: string, second: string, rest: string)
    requires |year| == 4 && |month| == |day| == |hour| == |minute| == |second| == 2
    ensures var s := Assemble(year, month, day, separator, hour, minute, second, rest);
            && |s| == 19 + |rest|
            && s[4] == '-' && s[7] == '-' && s[10] == separator && s[13] == ':' && s[16] == ':'
            && s[0..4] == year && s[5..7] == month && s[8..10] == day
            && s[11..13] == hour && s[14..16] == minute && s[17..19] == second && s[19..] == rest
  {
    var s := Assemble(year, month, day, separator, hour, minute, second, rest);
    assert s[0..4] == year;
    assert s[5..7] == month;
    assert s[8..10] == day;
    assert s[11..13] == hour;
    assert s[14..16] == minute;
    assert s[17..19] == second;
  }

  lemma PiecesAssemble(s: string)
    requires HasSeparators(s)
    ensures s == Assemble(s[0..4], s[5..7], s[8..10], s[10], s[11..13], s[14..16], s[17..19], s[19..])
  {
  }

  lemma TwoDigits(n: nat)
    requires n < 100
    ensures ParseFixed(Fixed(n, 2)) == Some(n)
    ensures Padded(n, 2) == Fixed(n, 2)
  {
    assert Pow10(2) == 100;
    ValueOfFixed(n, 2);
    PaddedIsFixed(n, 2);
  }

  lemma FourDigits(n: nat)
    requires n <= 9999
    ensures ParseFixed(Fixed(n, 4)) == Some(n)
    ensures Padded(n, 4) == Fixed(n, 4)
  {
    assert Pow10(4) == 10 * (10 * Pow10(2)) == 10_000;
    ValueOfFixed(n, 4);
    PaddedIsFixed(n, 4);
  }

  lemma ZoneStartsWithNoDigit(zone: Zone)
    ensures var v := ZoneText(zone); v != "" ==> !IsDigit(v[0]) && v[0] != '.'
  {
  }

  lemma NoFraction()
    ensures FractionMicros("") == 0
  {
  }

  lemma FractionReads(fraction: string, zone: Zone)
    requires AllDigits(fraction) && |fraction| <= 6
    ensures ParseFraction(FractionText(fraction) + ZoneText(zone)) == Some((FractionMicros(fraction), ZoneText(zone)))
  {
    hide Value, Pow10, ZoneText, DigitPrefix;
    var rest := FractionText(fraction) + ZoneText(zone);
    ZoneStartsWithNoDigit(zone);
    if fraction == "" {
      assert rest == ZoneText(zone);
      NoFraction();
    } else {
      assert rest[0] == '.' && rest[1..] == fraction + ZoneText(zone);
      FractionPrefix(fraction, ZoneText(zone));
    }
  }

  lemma FractionPrefix(fraction: string, v: string)
    requires AllDigits(fraction) && (v != "" ==> !IsDigit(v[0]))
    ensures var afterDot := fraction + v;
            DigitPrefix(afterDot) == |fraction| && afterDot[..|fraction|] == fraction && afterDot[|fraction|..] == v
  {
    DigitPrefixAt(fraction + v, |fraction|);
  }

  lemma ZoneReads(zone: Zone)
    requires ValidZone(zone)
    ensures ParseZone(ZoneText(zone)) == Some(ZoneSeconds(zone))
  {
    hide Fixed, ParseFixed;
    if zone.Offset? {
      TwoDigits(zone.hour);
      TwoDigits(zone.minute);
      var v := ZoneText(zone);
      assert v[1..3] == Fixed(zone.hour, 2) && v[4..6] == Fixed(zone.minute, 2);
    }
  }

  /** Every text of the accepted form is read, and as the instant it denotes. */
  lemma StampTextReads(st: Stamp)
    requires ValidStamp(st)
    ensures ParseMicros(StampText(st)) == Some(StampMicros(st))
  {
    hide DaysFromCivil, ToUnix, Fixed, Value, ParseFraction, ParseZone, Assemble, Trim, Padded, ParseFixed, FractionText,
         ZoneText, FractionMicros, ZoneSeconds;
    var rest := FractionText(st.fraction) + ZoneText(st.zone);
    AssembledPieces(Fixed(st.at.year, 4), Fixed(st.at.month, 2), Fixed(st.at.day, 2), st.separator,
                    Fixed(st.at.hour, 2), Fixed(st.at.minute, 2), Fixed(st.at.second, 2), rest);
    FourDigits(st.at.year);
    TwoDigits(st.at.month);
    TwoDigits(st.at.day);
    TwoDigits(st.at.hour);
    TwoDigits(st.at.minute);
    TwoDigits(st.at.second);
    FractionReads(st.fraction, st.zone);
    ZoneReads(st.zone);
    ToUnixCountsDays(st.at);
    StampTextIsTrimmed(st);
  }

  lemma StampTextIsTrimmed(st: Stamp)
    requires ValidStamp(st)
    ensures Trim(StampText(st)) == StampText(st)
  {
    var s := StampText(st);
    assert s[0] == Fixed(st.at.year, 4)[0] && s[0] in Fixed(st.at.year, 4);
    var last := s[|s| - 1];
    assert IsDigit(last) || last == 'Z' by {
      if st.zone.Offset? {
        assert last == Fixed(st.zone.minute, 2)[1];
      } else if st.zone.Bare? && st.fraction == "" {
        assert last == Fixed(st.at.second, 2)[1];
      } else if st.zone.Bare? {
        assert last == st.fraction[|st.fraction| - 1];
      }
    }
    TrimIsIdentity(s);
  }

  lemma ZoneOf(v: string) returns (zone: Zone)
    requires ParseZone(v).Some?
    ensures ValidZone(zone) && v == ZoneText(zone)
  {
    if v == "" {
      zone := Bare;
    } else if v == "Z" {
      zone := Zulu;
    } else {
      FixedOfValue(v[1..3]);
      FixedOfValue(v[4..6]);
      zone := Offset(v[0] == '-', Value(v[1..3]), Value(v[4..6]));
      assert v == [v[0]] + v[1..3] + [v[3]] + v[4..6];
    }
  }

  lemma FractionOf(rest: string) returns (fraction: string)
    requires ParseFraction(rest).Some?
    ensures AllDigits(fraction) && |fraction| <= 6
    ensures rest == FractionText(fraction) + ParseFraction(rest).value.1
  {
    if rest == "" || rest[0] != '.' {
      fraction := "";
    } else {
      var afterDot := rest[1..];
      fraction := afterDot[..DigitPrefix(afterDot)];
      assert rest == "." + afterDot;
    }
  }

  /** Nothing else is read: an accepted text has the accepted form. */
  lemma ReadsOnlyStamps(text: string) returns (st: Stamp)
    requires ParseMicros(text).Some?
    ensures ValidStamp(st) && Trim(text) == StampText(st)
  {
    hide ParseTrimmed, Trim;
    st := StampOf(Trim(text));
  }

  lemma StampOf(s: string) returns (st: Stamp)
    requires ParseTrimmed(s).Some?
    ensures ValidStamp(st) && s == StampText(st)
  {
    hide DaysFromCivil, ToUnix, ParseFraction, ParseZone;
    PiecesAssemble(s);
    FixedOfValue(s[0..4]);
    FixedOfValue(s[5..7]);
    FixedOfValue(s[8..10]);
    FixedOfValue(s[11..13]);
    FixedOfValue(s[14..16]);
    FixedOfValue(s[17..19]);
    assert Pow10(4) == 10 * (10 * Pow10(2)) == 10_000;
    var fraction := FractionOf(s[19..]);
    var zone := ZoneOf(ParseFraction(s[19..]).value.1);
    st := Stamp(DateTime(Value(s[0..4]), Value(s[5..7]), Value(s[8..10]),
                         Value(s[11..13]), Value(s[14..16]), Value(s[17..19]), 0, false),
                s[10], fraction, zone);
  }

  lemma StampIsAscii(st: Stamp)
    requires ValidStamp(st)
    ensures IsAscii(StampText(st))
  {
  }

  /** The reader indexes bytes, which accepts the same texts with the same meaning. */
  lemma BytesReadAlike(s: string)
    ensures ParseTrimmed(Bytewise(s)) == ParseTrimmed(s)
  {
    hide ParseTrimmed, Bytewise, IsAscii, StampText;
    if ParseTrimmed(s).Some? {
      var st := StampOf(s);
      StampIsAscii(st);
      BytewiseOfAscii(s);
    } else if ParseTrimmed(Bytewise(s)).Some? {
      var st := StampOf(Bytewise(s));
      StampIsAscii(st);
      AsciiBytesAreAsciiText(s);
      BytewiseOfAscii(s);
    }
  }

  ghost predicate Denotes(text: string, st: Stamp) {
    ValidStamp(st) && Trim(text) == StampText(st)
  }

  /** The reader's language and meaning, both directions. */
  lemma ReaderIsExact(text: string, v: int)
    ensures ParseMicros(text) == Some(v) <==> exists st :: Denotes(text, st) && v == StampMicros(st)
  {
    hide ParseTrimmed, Trim;
    if ParseMicros(text) == Some(v) {
      var st := ReadsOnlyStamps(text);
      ReadAs(text, st);
      assert Denotes(text, st);
    }
    forall st | Denotes(text, st) ensures ParseMicros(text) == Some(StampMicros(st)) {
      ReadAs(text, st);
    }
  }

  lemma ReadAs(text: string, st: Stamp)
    requires ValidStamp(st) && Trim(text) == StampText(st)
    ensures ParseMicros(text) == Some(StampMicros(st))
  {
    hide ParseTrimmed, Trim;
    StampTextReads(st);
    StampTextIsTrimmed(st);
  }

  /** The outer conversion to `i64` never rejects what the reader accepted. */
  lemma AcceptedFitsI64(text: string)
    ensures ParseMicros(text).Some? ==> FitsI64(ParseMicros(text).value)
  {
    hide ParseMicros, Trim, StampText, ToUnix, Value, Pow10;
    if ParseMicros(text).Some? {
      var st := ReadsOnlyStamps(text);
      ReadAs(text, st);
      StampBounds(st);
    }
  }

  lemma StampBounds(st: Stamp)
    requires ValidStamp(st)
    ensures -63_000_000_000 <= ToUnix(st.at) <= 254_000_000_000
    ensures -90_000 <= ZoneSeconds(st.zone) <= 90_000
    ensures FractionMicros(st.fraction) < 1_000_000
  {
    hide ToUnix, DaysFromCivil;
    ToUnixCountsDays(st.at);
    YearZeroToYear9999(st.at.CivilDate());
    FractionBound(st.fraction);
  }

  lemma YearZeroToYear9999(date: Date)
    requires ValidDate(date) && 0 <= date.year <= 9999
    ensures -719_528 <= DaysFromCivil(date) <= 2_932_896
  {
    hide DaysFromCivil;
    DaysAreChronological(date, Date(0, 1, 1));
    DaysAreChronological(date, Date(9999, 12, 31));
    YearEnds();
  }

  lemma YearEnds()
    ensures DaysFromCivil(Date(0, 1, 1)) == -719_528
    ensures DaysFromCivil(Date(9999, 12, 31)) == 2_932_896
  {
    assert -1 / 400 == -1 && -1 % 400 == 399;
    assert 9999 / 400 == 24 && 9999 % 400 == 399;
  }

  lemma FractionBound(fraction: string)
    requires AllDigits(fraction) && |fraction| <= 6
    ensures FractionMicros(fraction) < 1_000_000
  {
    hide Value, Fixed;
    FixedOfValue(fraction);
    var k := |fraction|;
    assert Pow10(0) == 1 && Pow10(1) == 10 && Pow10(2) == 100 && Pow10(3) == 10 * Pow10(2) == 1000;
    assert Pow10(4) == 10_000 && Pow10(5) == 10 * Pow10(4) && Pow10(6) == 10 * Pow10(5);
    assert k == 0 || k == 1 || k == 2 || k == 3 || k == 4 || k == 5 || k == 6;
  }

  // ---- Printing then reading -----------------------------------------------------------------

  lemma AssembledPlainly(year: string, month: string, day: string, hour: string, minute: string, second: string)
    ensures year + "-" + month + "-" + day + " " + (hour + ":" + minute + ":" + second) ==
            Assemble(year, month, day, ' ', hour, minute, second, "")
  {
  }

  lemma FormatIsStamp(t: DateTime)
    requires ValidDateTime(t) && 0 <= t.year <= 9999
    ensures FormatDateTime(t) == StampText(Stamp(t, ' ', "", Bare))
  {
    hide Fixed, Padded, Assemble;
    FourDigits(t.year);
    TwoDigits(t.month);
    TwoDigits(t.day);
    TwoDigits(t.hour);
    TwoDigits(t.minute);
    TwoDigits(t.second);
    PlainTail();
    AssembledPlainly(Fixed(t.year, 4), Fixed(t.month, 2), Fixed(t.day, 2),
                     Fixed(t.hour, 2), Fixed(t.minute, 2), Fixed(t.second, 2));
  }

  /** The printed text is read back as `to_unix`, exactly for the years 0000 to 9999. */
  lemma FormatThenParse(t: DateTime)
    requires ValidDateTime(t)
    ensures 0 <= t.year <= 9999 ==> ParseMicros(FormatDateTime(t)) == Some(ToUnix(t) * 1_000_000)
    ensures !(0 <= t.year <= 9999) ==> ParseMicros(FormatDateTime(t)) == None
  {
    hide ParseMicros, ToUnix, FormatDateTime;
    if 0 <= t.year <= 9999 {
      FormatIsStamp(t);
      StampTextReads(Stamp(t, ' ', "", Bare));
    } else {
      LongYearsAreRejected(t);
    }
  }

  lemma LongYearsAreRejected(t: DateTime)
    requires ValidDateTime(t) && !(0 <= t.year <= 9999)
    ensures ParseMicros(FormatDateTime(t)) == None
  {
    hide Padded, Trim, ParseTail, ParseFixed;
    var s := FormatDateTime(t);
    var year, second := FormatYear4(t.year), Padded(t.second, 2);
    LongYearText(t.year);
    PaddedIsNotEmpty(t.second, 2);
    assert s[0] == year[0] && s[4] == year[4];
    assert s[|s| - 1] == second[|second| - 1] && s[|s| - 1] in second;
    TrimIsIdentity(s);
  }

  lemma PaddedIsNotEmpty(n: nat, width: nat)
    ensures Padded(n, width) != ""
  {
  }

  lemma LongYearText(year: int)
    requires !(0 <= year <= 9999)
    ensures var y := FormatYear4(year);
            |y| >= 5 && IsDigit(y[4]) && (IsDigit(y[0]) || y[0] == '-')
  {
    assert Pow10(4) == 10 * (10 * Pow10(2)) == 10_000;
    if 0 < -year < 10_000 {
      PaddedIsFixed(-year, 4);
    } else {
      PaddedOfWide(if year < 0 then -year else year, 4);
    }
  }

  lemma AssembledWithRest(st: Stamp)
    requires ValidStamp(st)
    ensures StampText(st) == StampText(st.(fraction := "", zone := Bare)) + (FractionText(st.fraction) + ZoneText(st.zone))
  {
  }

  lemma PlainTail()
    ensures FractionText("") + ZoneText(Bare) == ""
  {
  }

  /** Appending a zone shifts the instant by exactly minus its offset. */
  lemma OffsetShifts(t: DateTime, zone: Zone)
    requires ValidDateTime(t) && 0 <= t.year <= 9999 && ValidZone(zone)
    ensures ParseMicros(FormatDateTime(t) + ZoneText(zone)) == Some((ToUnix(t) - ZoneSeconds(zone)) * 1_000_000)
  {
    hide ParseMicros, ToUnix, FormatDateTime, StampText, ZoneText, Value;
    var st := Stamp(t, ' ', "", zone);
    FormatIsStamp(t);
    NoFraction();
    assert FractionText("") + ZoneText(zone) == ZoneText(zone);
    AssembledWithRest(st);
    StampTextReads(st);
  }

  // ---- Text order is time order --------------------------------------------------------------

  /** Rust's `str` ordering on ASCII texts. */
  predicate TextBefore(a: string, b: string) {
    if a == "" then b != ""
    else b != "" && (a[0] < b[0] || (a[0] == b[0] && TextBefore(a[1..], b[1..])))
  }

  lemma {:induction false} CommonPrefix(p: string, a: string, b: string)
    ensures TextBefore(p + a, p + b) <==> TextBefore(a, b)
  {
    if p == "" {
      assert p + a == a && p + b == b;
    } else {
      assert (p + a)[1..] == p[1..] + a && (p + b)[1..] == p[1..] + b;
      CommonPrefix(p[1..], a, b);
    }
  }

  // Fixed-width numbers at the front decide the order, unless they are equal.
  lemma {:induction false} FixedDecides(m: nat, n: nat, width: nat, a: string, b: string)
    requires m < n < Pow10(width)
    ensures TextBefore(Fixed(m, width) + a, Fixed(n, width) + b)
    ensures !TextBefore(Fixed(n, width) + b, Fixed(m, width) + a)
  {
    var p, q := Fixed(m / 10, width - 1), Fixed(n / 10, width - 1);
    var x, y := [DigitChar(m % 10)], [DigitChar(n % 10)];
    assert Fixed(m, width) + a == p + (x + a) && Fixed(n, width) + b == q + (y + b);
    if m / 10 == n / 10 {
      CommonPrefix(p, x + a, y + b);
      CommonPrefix(p, y + b, x + a);
    } else {
      FixedDecides(m / 10, n / 10, width - 1, x + a, y + b);
    }
  }

  lemma FixedField(m: nat, n: nat, width: nat, a: string, b: string)
    requires m < Pow10(width) && n < Pow10(width)
    ensures TextBefore(Fixed(m, width) + a, Fixed(n, width) + b) <==> m < n || (m == n && TextBefore(a, b))
  {
    if m < n {
      FixedDecides(m, n, width, a, b);
    } else if n < m {
      FixedDecides(n, m, width, b, a);
    } else {
      CommonPrefix(Fixed(m, width), a, b);
    }
  }

  function AfterYear(t: DateTime): string
    requires ValidDateTime(t)
  {
    "-" + (Fixed(t.month, 2) + ("-" + (Fixed(t.day, 2) + (" " + TimeText(t)))))
  }

  function TimeText(t: DateTime): string
    requires ValidDateTime(t)
  {
    Fixed(t.hour, 2) + (":" + (Fixed(t.minute, 2) + (":" + (Fixed(t.second, 2) + ""))))
  }

  predicate TimeBefore(a: DateTime, b: DateTime) {
    a.hour < b.hour || (a.hour == b.hour && (a.minute < b.minute || (a.minute == b.minute && a.second < b.second)))
  }

  lemma TimeTextOrder(a: DateTime, b: DateTime)
    requires ValidDateTime(a) && ValidDateTime(b)
    ensures TextBefore(TimeText(a), TimeText(b)) <==> TimeBefore(a, b)
  {
    hide Fixed, TextBefore;
    assert Pow10(2) == 100;
    var sa, sb := Fixed(a.second, 2) + "", Fixed(b.second, 2) + "";
    FixedField(a.second, b.second, 2, "", "");
    EmptyIsNotBefore();
    CommonPrefix(":", sa, sb);
    FixedField(a.minute, b.minute, 2, ":" + sa, ":" + sb);
    var ma, mb := Fixed(a.minute, 2) + (":" + sa), Fixed(b.minute, 2) + (":" + sb);
    CommonPrefix(":", ma, mb);
    FixedField(a.hour, b.hour, 2, ":" + ma, ":" + mb);
  }

  lemma EmptyIsNotBefore()
    ensures !TextBefore("", "")
  {
  }

  lemma DateTextOrder(a: DateTime, b: DateTime)
    requires ValidDateTime(a) && ValidDateTime(b) && 0 <= a.year <= 9999 && 0 <= b.year <= 9999
    ensures TextBefore(Fixed(a.year, 4) + AfterYear(a), Fixed(b.year, 4) + AfterYear(b))
            <==> Before(a.CivilDate(), b.CivilDate()) || (a.CivilDate() == b.CivilDate() && TimeBefore(a, b))
  {
    hide Fixed, TextBefore, TimeText;
    assert Pow10(4) == 10 * (10 * Pow10(2)) == 10_000;
    TimeTextOrder(a, b);
    CommonPrefix(" ", TimeText(a), TimeText(b));
    var da, db := Fixed(a.day, 2) + (" " + TimeText(a)), Fixed(b.day, 2) + (" " + TimeText(b));
    FixedField(a.day, b.day, 2, " " + TimeText(a), " " + TimeText(b));
    CommonPrefix("-", da, db);
    var ma, mb := Fixed(a.month, 2) + ("-" + da), Fixed(b.month, 2) + ("-" + db);
    FixedField(a.month, b.month, 2, "-" + da, "-" + db);
    CommonPrefix("-", ma, mb);
    FixedField(a.year, b.year, 4, "-" + ma, "-" + mb);
  }

  /** Sorting the printed texts sorts the instants. */
  lemma TextOrderIsTimeOrder(a: DateTime, b: DateTime)
    requires ValidDateTime(a) && ValidDateTime(b) && 0 <= a.year <= 9999 && 0 <= b.year <= 9999
    ensures TextBefore(FormatDateTime(a), FormatDateTime(b)) <==> ToUnix(a) < ToUnix(b)
  {
    hide TextBefore, Fixed, ToUnix, DaysFromCivil, FormatDateTime;
    FormatSplits(a);
    FormatSplits(b);
    DateTextOrder(a, b);
    DaysAreChronological(a.CivilDate(), b.CivilDate());
    ToUnixCountsDays(a);
    ToUnixCountsDays(b);
  }

  lemma FormatSplits(t: DateTime)
    requires ValidDateTime(t) && 0 <= t.year <= 9999
    ensures FormatDateTime(t) == Fixed(t.year, 4) + AfterYear(t)
  {
    hide Fixed, ZoneText, FractionText, FormatDateTime;
    FormatIsStamp(t);
    PlainTail();
    Regroup(Fixed(t.year, 4), Fixed(t.month, 2), Fixed(t.day, 2),
            Fixed(t.hour, 2), Fixed(t.minute, 2), Fixed(t.second, 2));
  }

  lemma Regroup(year: string, month: string, day: string, hour: string, minute: string, second: string)
    ensures Assemble(year, month, day, ' ', hour, minute, second, "")
            == year + ("-" + (month + ("-" + (day + (" " + (hour + (":" + (minute + (":" + (second + ""))))))))))
  {
  }
}
