/** The identifiers the venue and the order-entry client print, and when two of them can be equal. */
module Identifiers {

  predicate IsDigit(c: char) {
    '0' <= c <= '9'
  }

  predicate AllDigits(s: string) {
    forall i :: 0 <= i < |s| ==> IsDigit(s[i])
  }

  function Digit(d: nat): char
    requires d < 10
  {
    '0' + d as char
  }

  /** A counter in decimal, without leading zeros. */
  function Digits(n: nat): string {
    if n < 10 then [Digit(n)] else Digits(n / 10) + [Digit(n % 10)]
  }

  function Zeros(k: nat): string {
    seq(k, i => '0')
  }

  /** The %06d verb: at least six digits, never cut short. */
  function Pad6(n: nat): string {
    var d := Digits(n);
    if |d| < 6 then Zeros(6 - |d|) + d else d
  }

  function OrderId(n: nat): string {
    "ORD" + Pad6(n)
  }

  function ExecId(n: nat): string {
    "EXE" + Pad6(n)
  }

  function ClOrdId(prefix: string, n: nat): string {
    "CL" + prefix + Pad6(n)
  }

  /** The number a digit string stands for: the way back from printing. */
  function Value(s: string): nat
    requires AllDigits(s)
  {
    if s == "" then 0 else 10 * Value(s[..|s| - 1]) + (s[|s| - 1] - '0') as nat
  }

  lemma {:induction false} DigitsReadBack(n: nat)
    ensures AllDigits(Digits(n)) && Value(Digits(n)) == n
    ensures Digits(n) != "" && (n > 0 ==> Digits(n)[0] != '0')
  {
    if n < 10 {
      assert Digits(n)[..0] == "";
    } else {
      DigitsReadBack(n / 10);
      assert Digits(n)[..|Digits(n)| - 1] == Digits(n / 10);
    }
  }

  lemma {:induction false} LeadingZeros(k: nat, s: string)
    requires AllDigits(s)
    ensures AllDigits(Zeros(k) + s) && Value(Zeros(k) + s) == Value(s)
  {
    var z := Zeros(k);
    if s == "" {
      assert z + s == z;
      if k > 0 {
        LeadingZeros(k - 1, "");
        assert z[..k - 1] == Zeros(k - 1) + "";
      }
    } else {
      LeadingZeros(k, s[..|s| - 1]);
      assert (z + s)[..|z + s| - 1] == z + s[..|s| - 1];
    }
  }

  /** Printing loses nothing, also past six digits. */
  lemma Pad6ReadsBack(n: nat)
    ensures AllDigits(Pad6(n)) && Value(Pad6(n)) == n
    ensures |Pad6(n)| >= 6
    ensures |Pad6(n)| > 6 ==> Pad6(n)[0] != '0'
  {
    DigitsReadBack(n);
    var d := Digits(n);
    if |d| < 6 {
      LeadingZeros(6 - |d|, d);
    }
    if n == 0 {
      assert |d| == 1;
    }
  }

  lemma Pad6Injective(m: nat, n: nat)
    ensures Pad6(m) == Pad6(n) <==> m == n
  {
    Pad6ReadsBack(m);
    Pad6ReadsBack(n);
  }

  /** What the identifiers look like: three letters, or CL and the client's prefix, then the counter. */
  lemma IdsReadBack(prefix: string, n: nat)
    ensures var e, o, c := ExecId(n), OrderId(n), ClOrdId(prefix, n);
      && |e| >= 9 && e[..3] == "EXE" && AllDigits(e[3..]) && Value(e[3..]) == n
      && |o| >= 9 && o[..3] == "ORD" && AllDigits(o[3..]) && Value(o[3..]) == n
      && |c| >= 8 + |prefix| && c[..2 + |prefix|] == "CL" + prefix
      && AllDigits(c[2 + |prefix|..]) && Value(c[2 + |prefix|..]) == n
  {
    Pad6ReadsBack(n);
    hide Pad6, Value;
    assert ExecId(n)[3..] == Pad6(n) && OrderId(n)[3..] == Pad6(n);
    assert ClOrdId(prefix, n)[2 + |prefix|..] == Pad6(n);
  }

  /** Venue identifiers are distinct for distinct counters. */
  lemma VenueIdsInjective(m: nat, n: nat)
    ensures ExecId(m) == ExecId(n) <==> m == n
    ensures OrderId(m) == OrderId(n) <==> m == n
    ensures ExecId(m) != OrderId(n)
  {
    Pad6Injective(m, n);
    assert ExecId(m)[3..] == Pad6(m) && ExecId(n)[3..] == Pad6(n);
    assert OrderId(m)[3..] == Pad6(m) && OrderId(n)[3..] == Pad6(n);
    assert ExecId(m)[0] == 'E' && OrderId(n)[0] == 'O';
  }

  /** Within one client, and across clients whose prefixes have equal length, a ClOrdID names one
      prefix and one counter. */
  lemma ClOrdIdInjective(p: string, m: nat, q: string, n: nat)
    requires |p| == |q|
    ensures ClOrdId(p, m) == ClOrdId(q, n) <==> p == q && m == n
  {
    var a, b := ClOrdId(p, m), ClOrdId(q, n);
    assert a[2..2 + |p|] == p && a[2 + |p|..] == Pad6(m);
    assert b[2..2 + |q|] == q && b[2 + |q|..] == Pad6(n);
    Pad6Injective(m, n);
  }

  /** `q` is `p` followed by digits that could begin a counter past six places. */
  predicate ExtendsByCounter(p: string, q: string) {
    |p| < |q| && p <= q && AllDigits(q[|p|..]) && q[|p|] != '0'
  }

  /** Two different prefixes can print the same ClOrdID, from counters that start at one, exactly when
      one continues the other with digits not starting with zero. */
  lemma PrefixesCollideExactlyWhen(p: string, q: string)
    requires p != q
    ensures (exists m: nat, n: nat :: 0 < m && 0 < n && ClOrdId(p, m) == ClOrdId(q, n))
            <==> ExtendsByCounter(p, q) || ExtendsByCounter(q, p)
  {
    if m: nat, n: nat :| 0 < m && 0 < n && ClOrdId(p, m) == ClOrdId(q, n) {
      if |p| <= |q| {
        CollisionExtends(p, m, q, n);
      } else {
        CollisionExtends(q, n, p, m);
      }
    }
    if ExtendsByCounter(p, q) {
      var m := ExtensionCollides(p, q);
    }
    if ExtendsByCounter(q, p) {
      var m := ExtensionCollides(q, p);
    }
  }

  lemma CollisionExtends(p: string, m: nat, q: string, n: nat)
    requires p != q && |p| <= |q| && ClOrdId(p, m) == ClOrdId(q, n)
    ensures ExtendsByCounter(p, q)
  {
    if |p| == |q| {
      ClOrdIdInjective(p, m, q, n);
    }
    Pad6ReadsBack(m);
    Pad6ReadsBack(n);
    var t := SplitCollision(p, Pad6(m), q, Pad6(n));
    assert t[0] == Pad6(m)[0];
    assert q[|p|..] == t;
    forall i | 0 <= i < |t| ensures IsDigit(t[i]) {
      assert t[i] == Pad6(m)[i];
    }
  }

  lemma SplitCollision(p: string, x: string, q: string, y: string) returns (t: string)
    requires |p| <= |q| && "CL" + p + x == "CL" + q + y
    ensures q == p + t && x == t + y
  {
    var a, b := "CL" + p + x, "CL" + q + y;
    t := q[|p|..];
    assert a[2..2 + |p|] == p && b[2..2 + |q|] == q;
    assert q[..|p|] == b[2..2 + |p|];
    assert x == a[2 + |p|..];
    assert b[2 + |p|..] == t + y;
  }

  lemma ExtensionCollides(p: string, q: string) returns (m: nat)
    requires ExtendsByCounter(p, q)
    ensures 0 < m && ClOrdId(p, m) == ClOrdId(q, 1)
  {
    var t := q[|p|..];
    var s := t + "000001";
    assert Pad6(1) == "000001" by {
      assert Zeros(5) == "00000";
      assert Digits(1) == "1";
    }
    m := Value(s);
    PrintsBack(s);
    assert Pad6(m) == s;
    assert "CL" + p + s == "CL" + (p + t) + "000001";
    assert p + t == q;
  }

  /** A digit string without a leading zero is the printed form of its value. */
  lemma {:induction false} PrintsBack(s: string)
    requires s != "" && AllDigits(s) && s[0] != '0'
    ensures Value(s) > 0 && Digits(Value(s)) == s
  {
    var front, last := s[..|s| - 1], s[|s| - 1];
    if front == "" {
      assert s == [last];
    } else {
      PrintsBack(front);
      assert s == front + [last];
    }
  }
}
