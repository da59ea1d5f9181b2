/**
 * The history timestamp: `datetime.now().strftime("%Y-%m-%d %H:%M:%S")`, and the text order SQLite
 * sorts it by. The format is fixed-width and zero-padded, so comparing two stamps as text compares
 * the moments they denote.
 */
module Timestamp {

  /** A calendar date and a time of day, the fields `strftime` reads. */
  datatype DateTime = DateTime(year: int, month: int, day: int, hour: int, minute: int, second: int)

  predicate LeapYear(y: int) {
    y % 4 == 0 && (y % 100 != 0 || y % 400 == 0)
  }

  function DaysInMonth(y: int, m: int): (r: int)
    requires 1 <= m <= 12
    ensures 28 <= r <= 31
  {
    if m == 2 then (if LeapYear(y) then 29 else 28)
    else if m == 4 || m == 6 || m == 9 || m == 11 then 30
    else 31
  }

  /** A moment `datetime.now()` can return, restricted to four-digit years. */
  predicate WellFormed(t: DateTime) {
    1000 <= t.year <= 9999 && 1 <= t.month <= 12 && 1 <= t.day <= DaysInMonth(t.year, t.month)
    && 0 <= t.hour < 24 && 0 <= t.minute < 60 && 0 <= t.second < 60
  }

  /** Chronological order: earlier year, or same year and earlier month, and so on down to the second. */
  predicate Before(a: DateTime, b: DateTime) {
    a.year < b.year || (a.year == b.year &&
    (a.month < b.month || (a.month == b.month &&
    (a.day < b.day || (a.day == b.day &&
    (a.hour < b.hour || (a.hour == b.hour &&
    (a.minute < b.minute || (a.minute == b.minute && a.second < b.second)))))))))
  }

  function Digit(d: int): (c: char)
    requires 0 <= d < 10
    ensures '0' <= c <= '9'
  {
    ('0' as int + d) as char
  }

  /** A two-digit zero-padded field (`%m`, `%d`, `%H`, `%M`, `%S`). */
  function Pad2(n: int): (r: string)
    requires 0 <= n < 100
    ensures |r| == 2
  {
    [Digit(n / 10), Digit(n % 10)]
  }

  /** The four-digit year (`%Y`), as its two leading and two trailing digits. */
  function Pad4(n: int): (r: string)
    requires 0 <= n < 10000
    ensures |r| == 4
  {
    Pad2(n / 100) + Pad2(n % 100)
  }

  /** A separator followed by a two-digit field. */
  function Field(sep: char, n: int): (r: string)
    requires 0 <= n < 100
    ensures |r| == 3 && r[0] == sep
  {
    [sep] + Pad2(n)
  }

  /** The stamp `YYYY-MM-DD HH:MM:SS`. */
  function Format(t: DateTime): (r: string)
    requires WellFormed(t)
    ensures |r| == 19
    ensures r[4] == '-' && r[7] == '-' && r[10] == ' ' && r[13] == ':' && r[16] == ':'
  {
    Pad4(t.year) + (Field('-', t.month) + (Field('-', t.day) + (Field(' ', t.hour)
      + (Field(':', t.minute) + Field(':', t.second)))))
  }

  /**
   * SQLite's BINARY collation: character by character, and a proper prefix sorts first. (SQLite
   * compares the UTF-8 bytes, which orders text the same way as comparing code points.)
   */
  predicate LexLess(s: string, t: string)
    decreases |s|
  {
    if |s| == 0 then |t| > 0
    else if |t| == 0 then false
    else if s[0] != t[0] then s[0] < t[0]
    else LexLess(s[1..], t[1..])
  }

  lemma {:induction false} LexLessIrreflexive(s: string)
    ensures !LexLess(s, s)
    decreases |s|
  {
    if |s| > 0 {
      LexLessIrreflexive(s[1..]);
    }
  }

  lemma {:induction false} LexLessTransitive(s: string, t: string, u: string)
    requires LexLess(s, t) && LexLess(t, u)
    ensures LexLess(s, u)
    decreases |s|
  {
    if |s| > 0 && |t| > 0 && |u| > 0 && s[0] == t[0] && t[0] == u[0] {
      LexLessTransitive(s[1..], t[1..], u[1..]);
    }
  }

  lemma {:induction false} LexLessTotal(s: string, t: string)
    ensures s == t || LexLess(s, t) || LexLess(t, s)
    decreases |s|
  {
    if |s| > 0 && |t| > 0 && s[0] == t[0] {
      LexLessTotal(s[1..], t[1..]);
      if s[1..] == t[1..] {
        assert s == [s[0]] + s[1..] && t == [t[0]] + t[1..];
      }
    }
  }

  lemma LexLessAsymmetric(s: string, t: string)
    requires LexLess(s, t)
    ensures !LexLess(t, s)
  {
    if LexLess(t, s) {
      LexLessTransitive(s, t, s);
      LexLessIrreflexive(s);
    }
  }

  /** Two texts with heads of equal length compare by their heads first, and by the rest on a tie. */
  lemma {:induction false} LexLessConcat(a: string, x: string, b: string, y: string)
    requires |a| == |b|
    ensures LexLess(a + x, b + y) <==> LexLess(a, b) || (a == b && LexLess(x, y))
    decreases |a|
  {
    if |a| > 0 {
      assert (a + x)[0] == a[0] && (b + y)[0] == b[0];
      assert (a + x)[1..] == a[1..] + x && (b + y)[1..] == b[1..] + y;
      LexLessConcat(a[1..], x, b[1..], y);
      if a[0] == b[0] && a[1..] == b[1..] {
        assert a == [a[0]] + a[1..] && b == [b[0]] + b[1..];
      }
      if a == b {
        assert a[1..] == b[1..];
      }
    } else {
      assert a + x == x && b + y == y;
    }
  }

  lemma Pad2Order(m: int, n: int)
    requires 0 <= m < 100 && 0 <= n < 100
    ensures LexLess(Pad2(m), Pad2(n)) <==> m < n
    ensures Pad2(m) == Pad2(n) <==> m == n
  {
    var p, q := Pad2(m), Pad2(n);
    assert p == [p[0]] + [p[1]] && q == [q[0]] + [q[1]];
    LexLessConcat([p[0]], [p[1]], [q[0]], [q[1]]);
    assert m == 10 * (m / 10) + m % 10 && n == 10 * (n / 10) + n % 10;
  }

  lemma Pad4Order(m: int, n: int)
    requires 0 <= m < 10000 && 0 <= n < 10000
    ensures LexLess(Pad4(m), Pad4(n)) <==> m < n
    ensures Pad4(m) == Pad4(n) <==> m == n
  {
    LexLessConcat(Pad2(m / 100), Pad2(m % 100), Pad2(n / 100), Pad2(n % 100));
    Pad2Order(m / 100, n / 100);
    Pad2Order(m % 100, n % 100);
    if Pad4(m) == Pad4(n) {
      assert Pad2(m / 100) == Pad4(m)[..2] && Pad2(n / 100) == Pad4(n)[..2];
      assert Pad2(m % 100) == Pad4(m)[2..] && Pad2(n % 100) == Pad4(n)[2..];
    }
    assert m == 100 * (m / 100) + m % 100 && n == 100 * (n / 100) + n % 100;
  }

  lemma FieldOrder(sep: char, m: int, n: int)
    requires 0 <= m < 100 && 0 <= n < 100
    ensures LexLess(Field(sep, m), Field(sep, n)) <==> m < n
    ensures Field(sep, m) == Field(sep, n) <==> m == n
  {
    LexLessConcat([sep], Pad2(m), [sep], Pad2(n));
    Pad2Order(m, n);
    if Field(sep, m) == Field(sep, n) {
      assert Pad2(m) == Field(sep, m)[1..] && Pad2(n) == Field(sep, n)[1..];
    }
  }

  /** One step of the comparison of two stamps: a head field of fixed width, then the rest. */
  lemma ConcatStep(a: string, x: string, b: string, y: string)
    requires |a| == |b|
    ensures LexLess(a + x, b + y) <==> LexLess(a, b) || (a == b && LexLess(x, y))
    ensures a + x == b + y <==> a == b && x == y
  {
    LexLessConcat(a, x, b, y);
    if a + x == b + y {
      assert a == (a + x)[..|a|] && b == (b + y)[..|b|];
      assert x == (a + x)[|a|..] && y == (b + y)[|b|..];
    }
  }

  /**
   * The point of the format: the text order of two stamps is the chronological order of the moments,
   * and distinct moments give distinct stamps. So `ORDER BY timestamp DESC` lists newest first.
   */
  lemma FormatOrder(a: DateTime, b: DateTime)
    requires WellFormed(a) && WellFormed(b)
    ensures LexLess(Format(a), Format(b)) <==> Before(a, b)
    ensures Format(a) == Format(b) <==> a == b
  {
    var s5a, s5b := Field(':', a.minute) + Field(':', a.second), Field(':', b.minute) + Field(':', b.second);
    ConcatStep(Field(':', a.minute), Field(':', a.second), Field(':', b.minute), Field(':', b.second));
    FieldOrder(':', a.minute, b.minute);
    FieldOrder(':', a.second, b.second);
    if LexLess(Field(':', a.second), Field(':', b.second)) {
      LexLessAsymmetric(Field(':', a.second), Field(':', b.second));
    }
    var s4a, s4b := Field(' ', a.hour) + s5a, Field(' ', b.hour) + s5b;
    ConcatStep(Field(' ', a.hour), s5a, Field(' ', b.hour), s5b);
    FieldOrder(' ', a.hour, b.hour);
    var s3a, s3b := Field('-', a.day) + s4a, Field('-', b.day) + s4b;
    ConcatStep(Field('-', a.day), s4a, Field('-', b.day), s4b);
    FieldOrder('-', a.day, b.day);
    var s2a, s2b := Field('-', a.month) + s3a, Field('-', b.month) + s3b;
    ConcatStep(Field('-', a.month), s3a, Field('-', b.month), s3b);
    FieldOrder('-', a.month, b.month);
    ConcatStep(Pad4(a.year), s2a, Pad4(b.year), s2b);
    Pad4Order(a.year, b.year);
  }
}
