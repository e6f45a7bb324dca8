/** Pair identifiers `CS-P001`: printing, recognising and ordering. */
module PairIds {
  import opened Options

  // -------------------------------------------------------------------------
  // Decimal digits
  // -------------------------------------------------------------------------

  predicate IsDigit(c: char) {
    '0' <= c <= '9'
  }

  predicate AllDigits(s: string) {
    forall i | 0 <= i < |s| :: IsDigit(s[i])
  }

  function Digit(d: nat): (c: char)
    requires d < 10
    ensures IsDigit(c) && c as int == '0' as int + d
  {
    ('0' as int + d) as char
  }

  function Decimal(n: nat): (s: string)
    ensures AllDigits(s) && s != []
  {
    if n < 10 then [Digit(n)] else Decimal(n / 10) + [Digit(n % 10)]
  }

  /** `int(s)` for a string of digits. */
  function Value(s: string): nat
    requires AllDigits(s)
  {
    if s == [] then 0 else 10 * Value(s[..|s| - 1]) + (s[|s| - 1] as int - '0' as int)
  }

  function Zeros(k: nat): (s: string)
    ensures |s| == k && AllDigits(s)
  {
    seq(k, _ => '0')
  }

  /** `f"{n:03d}"` */
  function Padded(n: nat): (s: string)
    ensures AllDigits(s) && |s| >= 3
  {
    var s := Decimal(n);
    if |s| >= 3 then s else Zeros(3 - |s|) + s
  }

  lemma {:induction false} DecimalValue(n: nat)
    ensures Value(Decimal(n)) == n
  {
    if n >= 10 {
      DecimalValue(n / 10);
      assert Decimal(n)[..|Decimal(n)| - 1] == Decimal(n / 10);
    } else {
      assert Decimal(n)[..0] == [];
    }
  }

  lemma {:induction false} LeadingZeros(k: nat, s: string)
    requires AllDigits(s)
    ensures Value(Zeros(k) + s) == Value(s)
    decreases |s|, k
  {
    var z := Zeros(k) + s;
    if s != [] {
      assert z[..|z| - 1] == Zeros(k) + s[..|s| - 1];
      LeadingZeros(k, s[..|s| - 1]);
    } else if k > 0 {
      assert z[..|z| - 1] == Zeros(k - 1) + s;
      LeadingZeros(k - 1, s);
    }
  }

  // -------------------------------------------------------------------------
  // Identifiers
  // -------------------------------------------------------------------------

  const PREFIX := "CS-P"

  function Print(n: nat): string {
    PREFIX + Padded(n)
  }

  /** What `^CS-P\d{3,}$` leaves after the prefix. The dollar sign also matches before one
      final newline. */
  function Body(id: string): Option<string> {
    if |id| < 4 || id[..4] != PREFIX then None
    else
      var rest := id[4..];
      var body := if rest != [] && rest[|rest| - 1] == '\n' then rest[..|rest| - 1] else rest;
      if |body| >= 3 && AllDigits(body) then Some(body) else None
  }

  predicate WellFormed(id: string) {
    Body(id).Some?
  }

  /** `int(pair_id.split("-P")[1])`; a final newline is ignored. */
  function Number(id: string): nat
    requires WellFormed(id)
  {
    Value(Body(id).value)
  }

  /** The prefix, three or more digits, and perhaps one final newline. */
  lemma {:induction false} WellFormedExactly(id: string)
    ensures WellFormed(id)
       <==> exists digits | |digits| >= 3 && AllDigits(digits) :: id == "CS-P" + digits || id == "CS-P" + digits + "\n"
  {
    if WellFormed(id) {
      var digits := Body(id).value;
      if id[|id| - 1] == '\n' {
        assert id == "CS-P" + digits + "\n";
      } else {
        assert id == "CS-P" + digits;
      }
    }
    forall digits | |digits| >= 3 && AllDigits(digits) && (id == "CS-P" + digits || id == "CS-P" + digits + "\n")
      ensures WellFormed(id)
    {
      BodyOf(id, digits);
    }
  }

  lemma {:induction false} BodyOf(id: string, digits: string)
    requires |digits| >= 3 && AllDigits(digits) && (id == "CS-P" + digits || id == "CS-P" + digits + "\n")
    ensures Body(id) == Some(digits)
  {
    assert id[..4] == PREFIX && IsDigit(digits[|digits| - 1]);
    if id == "CS-P" + digits {
      assert id[4..] == digits;
    } else {
      assert id[4..] == digits + "\n" && (digits + "\n")[..|digits|] == digits;
    }
  }

  lemma {:induction false} DecimalLength(n: nat)
    ensures n < 10 ==> |Decimal(n)| == 1
    ensures 10 <= n < 100 ==> |Decimal(n)| == 2
    ensures 100 <= n < 1000 ==> |Decimal(n)| == 3
  {
    if n >= 10 { DecimalLength(n / 10); }
  }

  /** Numbers below a thousand are padded to three digits; others are printed as they are. */
  lemma {:induction false} PrintLength(n: nat)
    ensures n < 1000 ==> |Print(n)| == 7
    ensures n >= 1000 ==> Print(n) == "CS-P" + Decimal(n)
  {
    DecimalLength(n);
    if n >= 1000 { LongDecimal(n); }
  }

  lemma {:induction false} LongDecimal(n: nat)
    requires n >= 100
    ensures |Decimal(n)| >= 3
  {
    if n >= 1000 { LongDecimal(n / 10); } else { DecimalLength(n); }
  }

  /** Reading a printed identifier gives the number back, for every number. */
  lemma {:induction false} RoundTrip(n: nat)
    ensures WellFormed(Print(n)) && Number(Print(n)) == n
  {
    var id := Print(n);
    assert id[..4] == PREFIX && id[4..] == Padded(n);
    DecimalValue(n);
    if |Decimal(n)| < 3 { LeadingZeros(3 - |Decimal(n)|, Decimal(n)); }
  }

  // -------------------------------------------------------------------------
  // String order
  // -------------------------------------------------------------------------

  /** Code-point order, as strings are compared. */
  predicate AtMost(a: string, b: string) {
    a == [] || (b != [] && (a[0] < b[0] || (a[0] == b[0] && AtMost(a[1..], b[1..]))))
  }

  lemma {:induction false} AtMostReflexive(a: string)
    ensures AtMost(a, a)
  {
    if a != [] { AtMostReflexive(a[1..]); }
  }

  lemma {:induction false} AtMostTotal(a: string, b: string)
    ensures AtMost(a, b) || AtMost(b, a)
  {
    if a != [] && b != [] && a[0] == b[0] { AtMostTotal(a[1..], b[1..]); }
  }

  lemma {:induction false} AtMostTransitive(a: string, b: string, c: string)
    requires AtMost(a, b) && AtMost(b, c)
    ensures AtMost(a, c)
  {
    if a != [] && a[0] == b[0] && b[0] == c[0] { AtMostTransitive(a[1..], b[1..], c[1..]); }
  }

  lemma {:induction false} AtMostAntisymmetric(a: string, b: string)
    requires AtMost(a, b) && AtMost(b, a)
    ensures a == b
  {
    if a != [] {
      AtMostAntisymmetric(a[1..], b[1..]);
      assert a == [a[0]] + a[1..] && b == [b[0]] + b[1..];
    }
  }

  lemma {:induction false} CommonPrefix(p: string, a: string, b: string)
    ensures AtMost(p + a, p + b) <==> AtMost(a, b)
  {
    if p == [] {
      assert p + a == a && p + b == b;
    } else {
      assert (p + a)[1..] == p[1..] + a && (p + b)[1..] == p[1..] + b;
      CommonPrefix(p[1..], a, b);
    }
  }

  lemma {:induction false} LastDecides(a: string, b: string, x: char, y: char)
    requires |a| == |b|
    ensures AtMost(a + [x], b + [y]) <==> (a != b && AtMost(a, b)) || (a == b && x <= y)
  {
    if a == [] {
      assert a + [x] == [x] && b + [y] == [y];
    } else {
      assert (a + [x])[1..] == a[1..] + [x] && (b + [y])[1..] == b[1..] + [y];
      assert a == [a[0]] + a[1..] && b == [b[0]] + b[1..];
      LastDecides(a[1..], b[1..], x, y);
    }
  }

  /** For digit strings of one length the string order is the order of the numbers. */
  lemma {:induction false} OrderOfValues(a: string, b: string)
    requires AllDigits(a) && AllDigits(b) && |a| == |b|
    ensures AtMost(a, b) <==> Value(a) <= Value(b)
    ensures Value(a) == Value(b) ==> a == b
    decreases |a|
  {
    if a != [] {
      var a', b' := a[..|a| - 1], b[..|b| - 1];
      var x, y := a[|a| - 1], b[|b| - 1];
      assert a == a' + [x] && b == b' + [y];
      LastDecides(a', b', x, y);
      OrderOfValues(a', b');
      OrderOfValues(b', a');
      if Value(a') < Value(b') {
        assert 10 * Value(a') + 10 <= 10 * Value(b');
      } else if Value(b') < Value(a') {
        assert 10 * Value(b') + 10 <= 10 * Value(a');
      }
      if AtMost(a', b') && AtMost(b', a') { AtMostAntisymmetric(a', b'); }
    }
  }

  /** Identifiers of one length sort as their numbers do. */
  lemma {:induction false} SortedLikeNumbers(m: nat, n: nat)
    requires |Print(m)| == |Print(n)|
    ensures AtMost(Print(m), Print(n)) <==> m <= n
  {
    CommonPrefix(PREFIX, Padded(m), Padded(n));
    OrderOfValues(Padded(m), Padded(n));
    RoundTrip(m);
    RoundTrip(n);
    assert Print(m)[4..] == Padded(m) && Print(n)[4..] == Padded(n);
    assert Value(Padded(m)) == m && Value(Padded(n)) == n;
  }

  /** From four digits on they do not. */
  lemma {:induction false} ThousandSortsFirst()
    ensures AtMost(Print(1000), Print(999)) && !AtMost(Print(999), Print(1000))
  {
    assert Decimal(1000) == "1000" by {
      assert Decimal(1) == "1" && Decimal(10) == "10" && Decimal(100) == "100";
    }
    assert Decimal(999) == "999" by {
      assert Decimal(9) == "9" && Decimal(99) == "99";
    }
    CommonPrefix(PREFIX, "1000", "999");
    CommonPrefix(PREFIX, "999", "1000");
  }

  lemma {:induction false} ThreeDigits(n: nat)
    requires n < 1000
    ensures |Print(n)| == 7
  {
    assert n / 10 < 100 && n / 10 / 10 < 10;
    assert |Decimal(n / 10 / 10)| == 1;
    if n >= 100 {
      assert |Decimal(n / 10)| == 2;
    } else if n >= 10 {
      assert |Decimal(n / 10)| == 1;
    }
  }

  /** The identifiers of the numbers up to `bound` sort as the numbers do exactly when the
      bound is below 1000. */
  lemma {:induction false} NumericOrderExactly(bound: nat)
    ensures (forall m, n | 0 <= m <= n <= bound :: AtMost(Print(m), Print(n))) <==> bound < 1000
  {
    if bound < 1000 {
      forall m, n | 0 <= m <= n <= bound ensures AtMost(Print(m), Print(n)) {
        ThreeDigits(m);
        ThreeDigits(n);
        SortedLikeNumbers(m, n);
      }
    } else {
      ThousandSortsFirst();
    }
  }
}
