/** Calendar timestamps as `datetime.now()` returns them, and the two `strftime` layouts the
  * application writes: `%Y-%m-%d_%H-%M-%S` in archive names and `%Y-%m-%d %H:%M:%S` in logs. */
module Clock {
  import opened Lex

  datatype DateTime = DateTime(year: nat, month: nat, day: nat, hour: nat, minute: nat, second: nat) {
    /** The ranges `datetime` guarantees, with four-digit years (see README, Left out). */
    predicate Valid() {
      && 1000 <= year <= 9999 && 1 <= month <= 12 && 1 <= day <= 31
      && hour <= 23 && minute <= 59 && second <= 59
    }
  }

  /** `a` is not later than `b`. */
  predicate NotAfter(a: DateTime, b: DateTime) {
    || a.year < b.year
    || (a.year == b.year && (a.month < b.month
    || (a.month == b.month && (a.day < b.day
    || (a.day == b.day && (a.hour < b.hour
    || (a.hour == b.hour && (a.minute < b.minute
    || (a.minute == b.minute && a.second <= b.second)))))))))
  }

  /** `a` is strictly earlier than `b`. */
  predicate Before(a: DateTime, b: DateTime) {
    NotAfter(a, b) && a != b
  }

  function Pow10(w: nat): (p: nat)
    ensures p >= 1
  {
    if w == 0 then 1 else 10 * Pow10(w - 1)
  }

  function DigitChar(d: nat): char
    requires d < 10
  {
    ('0' as int + d) as char
  }

  /** The last `w` decimal digits of `n`, zero-padded: `%0wd` for `n < 10^w`. */
  function Digits(n: nat, w: nat): (s: string)
    ensures |s| == w
  {
    if w == 0 then [] else Digits(n / 10, w - 1) + [DigitChar(n % 10)]
  }

  /** Fixed-width decimal strings compare like the numbers they spell. */
  lemma {:induction false} DigitsOrder(x: nat, y: nat, w: nat)
    requires x < Pow10(w) && y < Pow10(w)
    ensures Le(Digits(x, w), Digits(y, w)) <==> x <= y
    ensures Digits(x, w) == Digits(y, w) <==> x == y
  {
    if w == 0 {
      assert x == 0 && y == 0;
    } else {
      var hx, hy := Digits(x / 10, w - 1), Digits(y / 10, w - 1);
      var cx, cy := DigitChar(x % 10), DigitChar(y % 10);
      DigitsOrder(x / 10, y / 10, w - 1);
      LeConcat(hx, [cx], hy, [cy]);
      assert Le([cx], [cy]) <==> x % 10 <= y % 10 by {
        assert [cx][1..] == [] && [cy][1..] == [];
      }
      assert Digits(x, w) == Digits(y, w) <==> hx == hy && cx == cy by {
        if Digits(x, w) == Digits(y, w) {
          assert hx == Digits(x, w)[..w - 1] && hy == Digits(y, w)[..w - 1];
          assert cx == Digits(x, w)[w - 1] && cy == Digits(y, w)[w - 1];
        }
      }
      assert x == 10 * (x / 10) + x % 10 && y == 10 * (y / 10) + y % 10;
    }
  }

  /** One zero-padded field, its separator, and everything after it. */
  function Field(x: nat, w: nat, sep: string, rest: string): string {
    Digits(x, w) + sep + rest
  }

  lemma FieldOrder(x1: nat, x2: nat, w: nat, sep: string, r1: string, r2: string)
    requires x1 < Pow10(w) && x2 < Pow10(w)
    ensures Le(Field(x1, w, sep, r1), Field(x2, w, sep, r2)) <==> x1 < x2 || (x1 == x2 && Le(r1, r2))
    ensures Field(x1, w, sep, r1) == Field(x2, w, sep, r2) <==> x1 == x2 && r1 == r2
  {
    var d1, d2 := Digits(x1, w), Digits(x2, w);
    DigitsOrder(x1, x2, w);
    LeConcat(d1 + sep, r1, d2 + sep, r2);
    LeConcat(d1, sep, d2, sep);
    LeRefl(sep);
    assert d1 + sep == d2 + sep <==> d1 == d2 by {
      if d1 + sep == d2 + sep {
        assert d1 == (d1 + sep)[..w] && d2 == (d2 + sep)[..w];
      }
    }
    assert Field(x1, w, sep, r1) == (d1 + sep) + r1;
    assert Field(x2, w, sep, r2) == (d2 + sep) + r2;
    if Field(x1, w, sep, r1) == Field(x2, w, sep, r2) {
      assert d1 == Field(x1, w, sep, r1)[..w] && d2 == Field(x2, w, sep, r2)[..w];
      assert r1 == Field(x1, w, sep, r1)[w + |sep|..] && r2 == Field(x2, w, sep, r2)[w + |sep|..];
    }
  }

  /** `t.strftime("%Y-%m-%d_%H-%M-%S") + tail`, field by field. */
  function StampThen(t: DateTime, tail: string): string {
    Field(t.year, 4, "-", Field(t.month, 2, "-", Field(t.day, 2, "_",
      Field(t.hour, 2, "-", Field(t.minute, 2, "-", Field(t.second, 2, tail, ""))))))
  }

  /** `t.strftime("%Y-%m-%d_%H-%M-%S")` */
  function FileStamp(t: DateTime): string {
    Digits(t.year, 4) + "-" + Digits(t.month, 2) + "-" + Digits(t.day, 2) + "_"
      + Digits(t.hour, 2) + "-" + Digits(t.minute, 2) + "-" + Digits(t.second, 2)
  }

  /** `t.strftime("%Y-%m-%d %H:%M:%S")` */
  function LogStamp(t: DateTime): string {
    Digits(t.year, 4) + "-" + Digits(t.month, 2) + "-" + Digits(t.day, 2) + " "
      + Digits(t.hour, 2) + ":" + Digits(t.minute, 2) + ":" + Digits(t.second, 2)
  }

  lemma FileStampFields(t: DateTime, tail: string)
    ensures FileStamp(t) + tail == StampThen(t, tail)
  {
  }

  /** Behind a common prefix and before a common tail, stamps compare like the times they show,
    * and different times never share a stamp. */
  lemma StampOrder(a: DateTime, b: DateTime, tail: string)
    requires a.Valid() && b.Valid()
    ensures Le(StampThen(a, tail), StampThen(b, tail)) <==> NotAfter(a, b)
    ensures StampThen(a, tail) == StampThen(b, tail) <==> a == b
  {
    var s1, s2 := Field(a.second, 2, tail, ""), Field(b.second, 2, tail, "");
    LeRefl("");
    FieldOrder(a.second, b.second, 2, tail, "", "");
    var m1, m2 := Field(a.minute, 2, "-", s1), Field(b.minute, 2, "-", s2);
    FieldOrder(a.minute, b.minute, 2, "-", s1, s2);
    var h1, h2 := Field(a.hour, 2, "-", m1), Field(b.hour, 2, "-", m2);
    FieldOrder(a.hour, b.hour, 2, "-", m1, m2);
    var d1, d2 := Field(a.day, 2, "_", h1), Field(b.day, 2, "_", h2);
    FieldOrder(a.day, b.day, 2, "_", h1, h2);
    var o1, o2 := Field(a.month, 2, "-", d1), Field(b.month, 2, "-", d2);
    FieldOrder(a.month, b.month, 2, "-", d1, d2);
    FieldOrder(a.year, b.year, 4, "-", o1, o2);
  }
}
