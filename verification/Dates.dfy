/** Text order, as the database compares strings, and dates written YYYY-MM-DD. */
module Dates {
  import opened Common

  /** `a` comes strictly before `b`, character by character. */
  predicate Before(a: string, b: string) {
    if b == [] then false
    else if a == [] then true
    else a[0] < b[0] || (a[0] == b[0] && Before(a[1..], b[1..]))
  }

  lemma {:induction false} BeforeIrreflexive(a: string)
    ensures !Before(a, a)
  {
    if a != [] { BeforeIrreflexive(a[1..]); }
  }

  lemma {:induction false} BeforeTotal(a: string, b: string)
    ensures a == b || Before(a, b) || Before(b, a)
  {
    if a != [] && b != [] && a[0] == b[0] {
      BeforeTotal(a[1..], b[1..]);
      assert a == [a[0]] + a[1..] && b == [b[0]] + b[1..];
    }
  }

  lemma {:induction false} BeforeTransitive(a: string, b: string, c: string)
    requires Before(a, b) && Before(b, c)
    ensures Before(a, c)
  {
    if a != [] && a[0] == b[0] && b[0] == c[0] { BeforeTransitive(a[1..], b[1..], c[1..]); }
  }

  /** Texts of one length are compared by their front parts first. */
  lemma {:induction false} BeforeConcat(a: string, x: string, b: string, y: string)
    requires |a| == |b|
    ensures Before(a + x, b + y) <==> Before(a, b) || (a == b && Before(x, y))
  {
    if a == [] {
      assert a + x == x && b + y == y;
    } else {
      BeforeConcat(a[1..], x, b[1..], y);
      assert (a + x)[1..] == a[1..] + x && (b + y)[1..] == b[1..] + y;
      assert a == [a[0]] + a[1..] && b == [b[0]] + b[1..];
      BeforeIrreflexive(a);
    }
  }

  /** The last `width` decimal digits of `n`, with leading zeros. */
  function Digits(n: nat, width: nat): (s: string)
    ensures |s| == width
  {
    if width == 0 then [] else Digits(n / 10, width - 1) + [Digit(n % 10)]
  }

  function Power10(width: nat): nat {
    if width == 0 then 1 else 10 * Power10(width - 1)
  }

  lemma {:induction false} DigitsOrder(a: nat, b: nat, width: nat)
    requires a < Power10(width) && b < Power10(width)
    ensures Before(Digits(a, width), Digits(b, width)) <==> a < b
    ensures Digits(a, width) == Digits(b, width) <==> a == b
  {
    if width > 0 {
      var x, y := Digits(a / 10, width - 1), Digits(b / 10, width - 1);
      DigitsOrder(a / 10, b / 10, width - 1);
      var c, d := [Digit(a % 10)], [Digit(b % 10)];
      BeforeConcat(x, c, y, d);
      assert Before(c, d) <==> a % 10 < b % 10 by { assert c[1..] == [] && d[1..] == []; }
      assert Digits(a, width)[..width - 1] == x && Digits(b, width)[..width - 1] == y;
      assert Digits(a, width)[width - 1] == c[0] && Digits(b, width)[width - 1] == d[0];
    }
  }

  datatype Date = Date(year: nat, month: nat, day: nat)

  /** Dates that YYYY-MM-DD can write. */
  predicate Writable(d: Date) {
    d.year < 10000 && d.month < 100 && d.day < 100
  }

  /** `%Y-%m-%d` */
  function DateText(d: Date): string {
    Digits(d.year, 4) + ("-" + (Digits(d.month, 2) + ("-" + Digits(d.day, 2))))
  }

  predicate Earlier(a: Date, b: Date) {
    a.year < b.year || (a.year == b.year && (a.month < b.month || (a.month == b.month && a.day < b.day)))
  }

  lemma DashOrder(x: string, y: string)
    ensures Before("-" + x, "-" + y) <==> Before(x, y)
  {
    BeforeConcat("-", x, "-", y);
    BeforeIrreflexive("-");
  }

  /** Comparing date texts is comparing dates. */
  lemma TextOrderIsCalendarOrder(a: Date, b: Date)
    requires Writable(a) && Writable(b)
    ensures Before(DateText(a), DateText(b)) <==> Earlier(a, b)
  {
    var dayA, dayB := "-" + Digits(a.day, 2), "-" + Digits(b.day, 2);
    var restA, restB := "-" + (Digits(a.month, 2) + dayA), "-" + (Digits(b.month, 2) + dayB);
    assert Power10(1) == 10 && Power10(2) == 100 && Power10(3) == 1000 && Power10(4) == 10000;
    DigitsOrder(a.year, b.year, 4);
    DigitsOrder(a.month, b.month, 2);
    DigitsOrder(a.day, b.day, 2);
    DashOrder(Digits(a.day, 2), Digits(b.day, 2));
    BeforeConcat(Digits(a.month, 2), dayA, Digits(b.month, 2), dayB);
    DashOrder(Digits(a.month, 2) + dayA, Digits(b.month, 2) + dayB);
    BeforeConcat(Digits(a.year, 4), restA, Digits(b.year, 4), restB);
  }
}
