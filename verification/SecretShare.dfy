/**
 * The string a secret's envelope is bound to (secretShareAdditionalData in
 * packages/domain/src/secret-share.ts), and a parser that recovers its
 * fields. Dates print as `toISOString` does (ECMA-262, section 21.4.4.36).
 */
module SecretShare {
  import opened Common
  import opened Text
  import opened Calendar

  const MAX_ROW_ID: int := 2147483647
  const MAX_TIME: int := 8640000000000000

  /** `expiresAt` is none for an invalid Date. */
  datatype Binding = Binding(documentId: string, senderId: int, recipientId: int, expiresAt: Option<int>)

  datatype Malformed = MalformedDocumentId | MalformedRowId | MalformedExpiresAt

  predicate IsLower(c: char) {
    'a' <= c <= 'z'
  }

  predicate IsDocumentId(s: string) {
    |s| == 24 && IsLower(s[0]) && forall i :: 1 <= i < 24 ==> IsLower(s[i]) || IsDigit(s[i])
  }

  predicate IsRowId(id: int) {
    1 <= id <= MAX_ROW_ID
  }

  function IsoYear(year: int): string {
    if 0 <= year <= 9999 then Pad(year, 4)
    else if year < 0 then "-" + Pad(-year, 6)
    else "+" + Pad(year, 6)
  }

  /** The last twenty characters of an ISO date: everything after the year. */
  function IsoTail(month: int, day: int, ms: int): string {
    "-" + Pad(month, 2) + "-" + Pad(day, 2) +
    "T" + Pad(ms / 3600000, 2) + ":" + Pad(ms / 60000 % 60, 2) + ":" + Pad(ms / 1000 % 60, 2) + "." +
      Pad(ms % 1000, 3) + "Z"
  }

  function IsoString(t: int): string {
    var date := CivilOf(t / DAY_MS);
    IsoYear(date.year) + IsoTail(date.month, date.day, t % DAY_MS)
  }

  function AdditionalData(b: Binding): Result<string, Malformed> {
    if !IsDocumentId(b.documentId) then Err(MalformedDocumentId)
    else if !IsRowId(b.senderId) || !IsRowId(b.recipientId) then Err(MalformedRowId)
    else if b.expiresAt.None? || !(-MAX_TIME <= b.expiresAt.value <= MAX_TIME) then Err(MalformedExpiresAt)
    else Ok("v1" + "|" + b.documentId + "|" + Decimal(b.senderId) + "|" + Decimal(b.recipientId) + "|" +
      IsoString(b.expiresAt.value))
  }

  /**
   * A string is printed exactly for a document id of twenty-four characters,
   * a lower-case letter and then letters or digits, two row ids, and a date
   * in the range of `Date`.
   */
  lemma PrintsExactlyWhen(b: Binding)
    ensures AdditionalData(b).Ok? <==>
      && |b.documentId| == 24 && 'a' <= b.documentId[0] <= 'z'
      && (forall i :: 1 <= i < 24 ==> 'a' <= b.documentId[i] <= 'z' || '0' <= b.documentId[i] <= '9')
      && 1 <= b.senderId < 0x8000_0000 && 1 <= b.recipientId < 0x8000_0000
      && b.expiresAt.Some? && -100_000_000 * 86_400_000 <= b.expiresAt.value <= 100_000_000 * 86_400_000
  {}

  // ---------------------------------------------------------------------
  // A parser.

  function Split(s: string): (fields: seq<string>)
    ensures fields != []
  {
    if s == "" then [""]
    else
      var rest := Split(s[1..]);
      if s[0] == '|' then [""] + rest else [[s[0]] + rest[0]] + rest[1..]
  }

  ghost function NumberOf(s: string): Option<nat> {
    if AllDigits(s) then Some(Number(s)) else None
  }

  ghost function YearOfText(s: string): Option<int> {
    var signed := s != "" && (s[0] == '-' || s[0] == '+');
    var digits := if signed then s[1..] else s;
    if !AllDigits(digits) || |digits| < (if signed then 6 else 4) then None
    else if signed && s[0] == '-' then Some(0 - Number(digits))
    else Some(Number(digits))
  }

  /** The marks of an ISO date in its last twenty characters. */
  predicate HasMarks(s: string)
    requires 20 <= |s|
  {
    var n := |s| - 20;
    s[n] == '-' && s[n + 3] == '-' && s[n + 6] == 'T' && s[n + 9] == ':' && s[n + 12] == ':' && s[n + 15] == '.' &&
    s[n + 19] == 'Z'
  }

  /** The instant of an ISO date, read from its end. */
  ghost function InstantOfText(s: string): Option<int> {
    if |s| < 20 || !HasMarks(s) then None
    else
      var n := |s| - 20;
      match (YearOfText(s[..n]), NumberOf(s[n + 1..n + 3]), NumberOf(s[n + 4..n + 6]), NumberOf(s[n + 7..n + 9]))
      case (Some(year), Some(month), Some(day), Some(hour)) =>
        (match (NumberOf(s[n + 10..n + 12]), NumberOf(s[n + 13..n + 15]), NumberOf(s[n + 16..n + 19]))
         case (Some(minute), Some(second), Some(ms)) =>
           if 1 <= month <= 12
           then Some(DayNumber(Civil(year, month, day)) * DAY_MS + hour * 3600000 + minute * 60000 + second * 1000 + ms)
           else None
         case _ => None)
      case _ => None
  }

  ghost function Parse(s: string): Option<Binding> {
    var fields := Split(s);
    if |fields| != 5 || fields[0] != "v1" then None
    else
      match (NumberOf(fields[2]), NumberOf(fields[3]), InstantOfText(fields[4]))
      case (Some(sender), Some(recipient), Some(t)) => Some(Binding(fields[1], sender, recipient, Some(t)))
      case _ => None
  }

  // ---------------------------------------------------------------------
  // The parser undoes the printer.

  ghost predicate NoBar(s: string) {
    forall i :: 0 <= i < |s| ==> s[i] != '|'
  }

  lemma {:induction false} SplitField(f: string, rest: string)
    requires NoBar(f)
    ensures Split(f + "|" + rest) == [f] + Split(rest)
  {
    var s := f + "|" + rest;
    if f == "" {
      assert s[1..] == rest;
    } else {
      SplitField(f[1..], rest);
      assert s[1..] == f[1..] + "|" + rest;
      assert f == [f[0]] + f[1..];
    }
  }

  lemma {:induction false} SplitLast(f: string)
    requires NoBar(f)
    ensures Split(f) == [f]
  {
    if f != "" {
      SplitLast(f[1..]);
      assert f == [f[0]] + f[1..];
    }
  }

  lemma Padded(n: nat, width: nat)
    requires width in {2, 3, 4, 6} && (width != 6 ==> n < Pow10(width))
    ensures AllDigits(Pad(n, width)) && Number(Pad(n, width)) == n && Pad(n, width) != ""
    ensures width <= |Pad(n, width)| && (width != 6 ==> |Pad(n, width)| == width)
  {
    PadRoundTrip(n, width);
  }

  lemma Powers()
    ensures Pow10(2) == 100 && Pow10(3) == 1000 && Pow10(4) == 10000
  {
    assert Pow10(1) == 10;
  }

  lemma YearRoundTrip(year: int)
    ensures YearOfText(IsoYear(year)) == Some(year) && NoBar(IsoYear(year))
  {
    hide Number, Pad, Pow10;
    Powers();
    var text := IsoYear(year);
    if 0 <= year <= 9999 {
      Padded(year, 4);
      assert |text| == 4;
      assert IsDigit(text[0]);
    } else {
      var n: nat := if year < 0 then -year else year;
      Padded(n, 6);
      assert text[1..] == Pad(n, 6);
    }
  }

  lemma TailRoundTrip(month: int, day: int, ms: int)
    requires 1 <= month <= 12 && 1 <= day <= 31 && 0 <= ms < DAY_MS
    ensures var tail := IsoTail(month, day, ms);
      && |tail| == 20 && NoBar(tail) && HasMarks(tail)
      && NumberOf(tail[1..3]) == Some(month) && NumberOf(tail[4..6]) == Some(day)
      && NumberOf(tail[7..9]) == Some(ms / 3600000) && NumberOf(tail[10..12]) == Some(ms / 60000 % 60)
      && NumberOf(tail[13..15]) == Some(ms / 1000 % 60) && NumberOf(tail[16..19]) == Some(ms % 1000)
  {
    hide Number, Pad, Pow10;
    Powers();
    var tail := IsoTail(month, day, ms);
    Padded(month, 2);
    Padded(day, 2);
    Padded(ms / 3600000, 2);
    Padded(ms / 60000 % 60, 2);
    Padded(ms / 1000 % 60, 2);
    Padded(ms % 1000, 3);
    assert tail[1..3] == Pad(month, 2);
    assert tail[4..6] == Pad(day, 2);
    assert tail[7..9] == Pad(ms / 3600000, 2);
    assert tail[10..12] == Pad(ms / 60000 % 60, 2);
    assert tail[13..15] == Pad(ms / 1000 % 60, 2);
    assert tail[16..19] == Pad(ms % 1000, 3);
  }

  lemma ClockParts(ms: int)
    requires 0 <= ms < DAY_MS
    ensures ms / 3600000 * 3600000 + ms / 60000 % 60 * 60000 + ms / 1000 % 60 * 1000 + ms % 1000 == ms
  {
    assert ms / 60000 == ms / 1000 / 60 && ms / 3600000 == ms / 60000 / 60;
  }

  lemma InstantRoundTrip(t: int)
    ensures InstantOfText(IsoString(t)) == Some(t) && NoBar(IsoString(t))
  {
    hide NumberOf, YearOfText, IsoTail, IsoYear, DayNumber, CivilOf, HasMarks;
    var date, ms := CivilOf(t / DAY_MS), t % DAY_MS;
    CivilRoundTrip(t / DAY_MS);
    var year, tail, s := IsoYear(date.year), IsoTail(date.month, date.day, ms), IsoString(t);
    YearRoundTrip(date.year);
    TailRoundTrip(date.month, date.day, ms);
    ClockParts(ms);
    var n := |s| - 20;
    TailStays(year, tail);
    assert s == year + tail && s[..n] == year;
    assert s[n + 1..n + 3] == tail[1..3] && s[n + 4..n + 6] == tail[4..6] && s[n + 7..n + 9] == tail[7..9];
    assert s[n + 10..n + 12] == tail[10..12] && s[n + 13..n + 15] == tail[13..15] && s[n + 16..n + 19] == tail[16..19];
  }

  lemma TailStays(year: string, tail: string)
    requires |tail| == 20 && HasMarks(tail)
    ensures HasMarks(year + tail)
  {
    var s, n := year + tail, |year|;
    assert forall i :: 0 <= i < 20 ==> s[n + i] == tail[i];
  }

  lemma DecimalRoundTrip(n: nat)
    ensures NumberOf(Decimal(n)) == Some(n) && NoBar(Decimal(n))
  {
    NumberOfDecimal(n);
  }

  /** The printed string determines the four fields: the parser recovers them. */
  lemma ParseRecovers(b: Binding)
    requires AdditionalData(b).Ok?
    ensures Parse(AdditionalData(b).value) == Some(b)
  {
    hide Split, NumberOf, InstantOfText, IsoString, Decimal;
    var sender, recipient, date := Decimal(b.senderId), Decimal(b.recipientId), IsoString(b.expiresAt.value);
    DecimalRoundTrip(b.senderId);
    DecimalRoundTrip(b.recipientId);
    InstantRoundTrip(b.expiresAt.value);
    SplitLast(date);
    SplitField(recipient, date);
    SplitField(sender, recipient + "|" + date);
    SplitField(b.documentId, sender + "|" + (recipient + "|" + date));
    SplitField("v1", b.documentId + "|" + (sender + "|" + (recipient + "|" + date)));
    assert AdditionalData(b).value == "v1" + "|" + (b.documentId + "|" + (sender + "|" + (recipient + "|" + date)));
  }

  /** Two valid bindings with the same string are the same binding. */
  lemma BindingIsUnambiguous(a: Binding, b: Binding)
    requires AdditionalData(a).Ok? && AdditionalData(a) == AdditionalData(b)
    ensures a == b
  {
    ParseRecovers(a);
    ParseRecovers(b);
  }
}
