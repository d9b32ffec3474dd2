/**
 The text that an audit row's hash covers: `${id}${action}${createdAt.toISOString()}`
 (apps/server/src/modules/audit/audit.service.ts:8-10), and why that concatenation is injective.
 */
module AuditText {
  import opened Common

  const UUID_WIDTH := 36

  /** A UUID in its canonical text form. */
  type Uuid = s: string | |s| == UUID_WIDTH witness seq(36, _ => '0')

  /** A stored timestamp: the UTC calendar fields, to the database's microsecond. */
  datatype RawTimestamp = Timestamp(year: nat, month: nat, day: nat, hour: nat, minute: nat, second: nat,
                                    milli: nat, micro: nat)
  {
    predicate InRange() {
      year < 10_000 && month < 100 && day < 100 && hour < 100 && minute < 100 && second < 100
      && milli < 1000 && micro < 1000
    }
  }

  /** Years 0 to 9999, where toISOString has its 24-character form. */
  type Timestamp = t: RawTimestamp | t.InRange() witness Timestamp(1970, 1, 1, 0, 0, 0, 0, 0)

  /** A number that orders timestamps as the calendar does. */
  function Ordinal(t: Timestamp): nat {
    ((((((t.year * 100 + t.month) * 100 + t.day) * 100 + t.hour) * 100 + t.minute) * 100 + t.second) * 1000
     + t.milli) * 1000 + t.micro
  }

  ghost predicate Before(a: int, b: int, rest: bool) {
    a < b || (a == b && rest)
  }

  lemma OneMoreField(a: nat, b: nat, x: nat, y: nat, base: nat)
    requires x < base && y < base
    ensures a * base + x < b * base + y <==> Before(a, b, x < y)
    ensures a * base + x == b * base + y <==> a == b && x == y
  {
    if a < b {
      assert (a + 1) * base <= b * base;
    } else if b < a {
      assert (b + 1) * base <= a * base;
    }
  }

  /** The hours of a timestamp, numbered as the calendar orders them. */
  function HourNumber(t: Timestamp): nat {
    ((t.year * 100 + t.month) * 100 + t.day) * 100 + t.hour
  }

  lemma HourNumberIsCalendarOrder(t: Timestamp, u: Timestamp)
    ensures HourNumber(t) < HourNumber(u) <==>
            Before(t.year, u.year, Before(t.month, u.month, Before(t.day, u.day, t.hour < u.hour)))
    ensures HourNumber(t) == HourNumber(u) <==>
            t.year == u.year && t.month == u.month && t.day == u.day && t.hour == u.hour
  {
    var t2, u2 := t.year * 100 + t.month, u.year * 100 + u.month;
    OneMoreField(t.year, u.year, t.month, u.month, 100);
    OneMoreField(t2, u2, t.day, u.day, 100);
    OneMoreField(t2 * 100 + t.day, u2 * 100 + u.day, t.hour, u.hour, 100);
  }

  lemma HourThenMinutes(t: Timestamp, u: Timestamp)
    ensures Ordinal(t) < Ordinal(u) <==>
            Before(HourNumber(t), HourNumber(u),
                   Before(t.minute, u.minute, Before(t.second, u.second, Before(t.milli, u.milli, t.micro < u.micro))))
  {
    var t5, u5 := HourNumber(t) * 100 + t.minute, HourNumber(u) * 100 + u.minute;
    var t6, u6 := t5 * 100 + t.second, u5 * 100 + u.second;
    OneMoreField(HourNumber(t), HourNumber(u), t.minute, u.minute, 100);
    OneMoreField(t5, u5, t.second, u.second, 100);
    OneMoreField(t6, u6, t.milli, u.milli, 1000);
    OneMoreField(t6 * 1000 + t.milli, u6 * 1000 + u.milli, t.micro, u.micro, 1000);
  }

  /** The number of a timestamp is smaller exactly if it is earlier in the calendar, field by field from the year on. */
  lemma OrdinalIsCalendarOrder(t: Timestamp, u: Timestamp)
    ensures Ordinal(t) < Ordinal(u) <==>
            Before(t.year, u.year, Before(t.month, u.month, Before(t.day, u.day, Before(t.hour, u.hour,
              Before(t.minute, u.minute, Before(t.second, u.second, Before(t.milli, u.milli, t.micro < u.micro)))))))
  {
    HourNumberIsCalendarOrder(t, u);
    HourThenMinutes(t, u);
  }

  function Digit(n: nat): char
    requires n < 10
  {
    ('0' as int + n) as char
  }

  /** n in exactly width decimal digits, padded with zeros. */
  function Digits(width: nat, n: nat): (s: string)
    ensures |s| == width
  {
    if width == 0 then "" else Digits(width - 1, n / 10) + [Digit(n % 10)]
  }

  function Pow10(width: nat): nat {
    if width == 0 then 1 else 10 * Pow10(width - 1)
  }

  lemma {:induction false} DigitsInjective(width: nat, m: nat, n: nat)
    requires m < Pow10(width) && n < Pow10(width)
    requires Digits(width, m) == Digits(width, n)
    ensures m == n
  {
    if width > 0 {
      var a, b := Digits(width - 1, m / 10), Digits(width - 1, n / 10);
      assert (a + [Digit(m % 10)])[..width - 1] == a;
      assert (b + [Digit(n % 10)])[..width - 1] == b;
      assert (a + [Digit(m % 10)])[width - 1] == Digit(m % 10);
      assert (b + [Digit(n % 10)])[width - 1] == Digit(n % 10);
      DigitsInjective(width - 1, m / 10, n / 10);
    }
  }

  /** The number that a text of decimal digits writes. */
  function Value(s: string): int {
    if s == "" then 0 else 10 * Value(s[..|s| - 1]) + (s[|s| - 1] as int - '0' as int)
  }

  /** The digits of a number write that number. */
  lemma {:induction false} DigitsWrite(width: nat, n: nat)
    requires n < Pow10(width)
    ensures Value(Digits(width, n)) == n
    ensures forall i | 0 <= i < width :: '0' <= Digits(width, n)[i] <= '9'
  {
    if width > 0 {
      DigitsWrite(width - 1, n / 10);
      var a := Digits(width - 1, n / 10);
      assert (a + [Digit(n % 10)])[..width - 1] == a;
    }
  }

  /** The ISO text spells the calendar fields with the separators of YYYY-MM-DDTHH:MM:SS.mmmZ. */
  lemma IsoStringReads(t: Timestamp)
    ensures var s := IsoString(t);
            && Value(s[0..4]) == t.year && Value(s[5..7]) == t.month && Value(s[8..10]) == t.day
            && Value(s[11..13]) == t.hour && Value(s[14..16]) == t.minute && Value(s[17..19]) == t.second
            && Value(s[20..23]) == t.milli
            && s[4] == '-' && s[7] == '-' && s[10] == 'T' && s[13] == ':' && s[16] == ':' && s[19] == '.'
              && s[23] == 'Z'
  {
    IsoFields(t);
    IsoSeparators(t);
    assert Pow10(2) == 100 && Pow10(3) == 1000 && Pow10(4) == 10_000;
    DigitsWrite(4, t.year);
    DigitsWrite(2, t.month);
    DigitsWrite(2, t.day);
    DigitsWrite(2, t.hour);
    DigitsWrite(2, t.minute);
    DigitsWrite(2, t.second);
    DigitsWrite(3, t.milli);
  }

  lemma IsoSeparators(t: Timestamp)
    ensures var s := IsoString(t);
            s[4] == '-' && s[7] == '-' && s[10] == 'T' && s[13] == ':' && s[16] == ':' && s[19] == '.' && s[23] == 'Z'
  {
  }

  /** Date.prototype.toISOString: milliseconds only, so the microseconds of the row are lost. */
  function IsoString(t: Timestamp): (s: string)
    ensures |s| == 24
  {
    Digits(4, t.year) + "-" + Digits(2, t.month) + "-" + Digits(2, t.day) + "T"
    + Digits(2, t.hour) + ":" + Digits(2, t.minute) + ":" + Digits(2, t.second) + "." + Digits(3, t.milli) + "Z"
  }

  predicate SameMillisecond(t: Timestamp, u: Timestamp) {
    u.(micro := t.micro) == t
  }

  lemma IsoStringInjective(t: Timestamp, u: Timestamp)
    ensures IsoString(t) == IsoString(u) <==> SameMillisecond(t, u)
  {
    if IsoString(t) == IsoString(u) {
      IsoFields(t);
      IsoFields(u);
      assert Pow10(2) == 100 && Pow10(3) == 1000 && Pow10(4) == 10_000;
      DigitsInjective(4, t.year, u.year);
      DigitsInjective(2, t.month, u.month);
      DigitsInjective(2, t.day, u.day);
      DigitsInjective(2, t.hour, u.hour);
      DigitsInjective(2, t.minute, u.minute);
      DigitsInjective(2, t.second, u.second);
      DigitsInjective(3, t.milli, u.milli);
    }
  }

  lemma IsoFields(t: Timestamp)
    ensures var s := IsoString(t);
            && s[0..4] == Digits(4, t.year) && s[5..7] == Digits(2, t.month) && s[8..10] == Digits(2, t.day)
            && s[11..13] == Digits(2, t.hour) && s[14..16] == Digits(2, t.minute) && s[17..19] == Digits(2, t.second)
            && s[20..23] == Digits(3, t.milli)
  {
    var s := IsoString(t);
    assert s[0..4] == Digits(4, t.year);
    assert s[5..7] == Digits(2, t.month);
    assert s[8..10] == Digits(2, t.day);
    assert s[11..13] == Digits(2, t.hour);
    assert s[14..16] == Digits(2, t.minute);
    assert s[17..19] == Digits(2, t.second);
    assert s[20..23] == Digits(3, t.milli);
  }

  /** computeHash. */
  function ComputeHash(id: Uuid, action: string, createdAt: Timestamp): Digest {
    Sha256(id + action + IsoString(createdAt))
  }

  /** What is hashed: the id, then the action, then the ISO text of the timestamp, and nothing else. */
  lemma HashCovers(id: Uuid, action: string, at: Timestamp)
    ensures var s := ComputeHash(id, action, at).preimage;
            && |s| == 36 + |action| + 24
            && s[..36] == id && s[36..36 + |action|] == action && s[36 + |action|..] == IsoString(at)
  {
    var s := id + action + IsoString(at);
    assert s[..36] == id && s[36..36 + |action|] == action && s[36 + |action|..] == IsoString(at);
  }

  /**
   The fixed widths of id and date leave no way to shift text between the three parts, so a hash
   determines the id, the action and the millisecond, and nothing else about the row.
   */
  lemma HashDetermines(id: Uuid, action: string, at: Timestamp, id': Uuid, action': string, at': Timestamp)
    ensures ComputeHash(id, action, at) == ComputeHash(id', action', at')
            <==> id == id' && action == action' && SameMillisecond(at, at')
  {
    var s, s' := id + action + IsoString(at), id' + action' + IsoString(at');
    IsoStringInjective(at, at');
    if s == s' {
      assert s[..36] == id && s'[..36] == id';
      assert s[36..|s| - 24] == action && s'[36..|s'| - 24] == action';
      assert s[|s| - 24..] == IsoString(at) && s'[|s'| - 24..] == IsoString(at');
    }
  }
}
