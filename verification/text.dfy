/** UTF-16 strings, options, and the ordering JavaScript's default sort uses. */
module Texts {

  datatype Option<+T> = None | Some(value: T) {
    predicate IsFailure() { None? }
    function PropagateFailure<U>(): Option<U>
      requires None?
    {
      None
    }
    function Extract(): T
      requires Some?
    {
      value
    }
    function GetOr(default: T): T { if Some? then value else default }
  }

  /** One UTF-16 code unit; a JavaScript string is any sequence of them. */
  type CodeUnit = n: int | 0 <= n < 0x1_0000
  type Text = seq<CodeUnit>

  /** The text of an ASCII literal. */
  function Lit(s: string): (t: Text)
    ensures |t| == |s|
  {
    seq(|s|, i requires 0 <= i < |s| => s[i] as int % 0x1_0000)
  }

  /** Lexicographic order on code units, the order of `Array.prototype.sort`. */
  predicate Less(a: Text, b: Text) {
    if b == [] then false
    else if a == [] then true
    else if a[0] != b[0] then a[0] < b[0]
    else Less(a[1..], b[1..])
  }

  lemma {:induction false} LessTotal(a: Text, b: Text)
    ensures a == b || Less(a, b) || Less(b, a)
    ensures !(Less(a, b) && Less(b, a))
    ensures !Less(a, a)
  {
    if a != [] {
      LessTotal(a[1..], a[1..]);
    }
    if a != [] && b != [] && a[0] == b[0] {
      LessTotal(a[1..], b[1..]);
      assert a == [a[0]] + a[1..] && b == [b[0]] + b[1..];
    }
  }

  lemma {:induction false} LessTransitive(a: Text, b: Text, c: Text)
    requires Less(a, b) && Less(b, c)
    ensures Less(a, c)
  {
    if a != [] && a[0] == b[0] == c[0] {
      LessTransitive(a[1..], b[1..], c[1..]);
    }
  }

  /** Said without recursion: `a` is a proper prefix of `b`, or smaller where they first differ. */
  predicate Before(a: Text, b: Text) {
    || (|a| < |b| && b[..|a|] == a)
    || exists i :: 0 <= i < |a| && i < |b| && a[..i] == b[..i] && a[i] < b[i]
  }

  lemma {:induction false} LessIsBefore(a: Text, b: Text)
    ensures Less(a, b) <==> Before(a, b)
  {
    if a != [] && b != [] {
      if a[0] == b[0] {
        LessIsBefore(a[1..], b[1..]);
        BeforeTail(a, b);
      } else if a[0] < b[0] {
        assert a[..0] == b[..0];
      }
    }
  }

  lemma BeforeTail(a: Text, b: Text)
    requires a != [] && b != [] && a[0] == b[0]
    ensures Before(a, b) <==> Before(a[1..], b[1..])
  {
    var x, y := a[1..], b[1..];
    assert a == [a[0]] + x && b == [b[0]] + y;
    if i :| 0 <= i < |a| && i < |b| && a[..i] == b[..i] && a[i] < b[i] {
      assert x[..i - 1] == a[..i][1..] && y[..i - 1] == b[..i][1..];
      assert x[i - 1] < y[i - 1];
    }
    if i :| 0 <= i < |x| && i < |y| && x[..i] == y[..i] && x[i] < y[i] {
      assert a[..i + 1] == [a[0]] + x[..i] && b[..i + 1] == [b[0]] + y[..i];
      assert a[i + 1] < b[i + 1];
    }
    if |a| < |b| && b[..|a|] == a {
      assert y[..|x|] == b[..|a|][1..];
    }
    if |x| < |y| && y[..|x|] == x {
      assert b[..|a|] == [b[0]] + y[..|x|];
    }
  }

  /** Decimal digits of a number, as `JSON.stringify` prints a safe integer. */
  function Digits(n: nat): (t: Text)
    ensures |t| > 0 && forall u | u in t :: 48 <= u <= 57
  {
    if n < 10 then [48 + n] else Digits(n / 10) + [48 + n % 10]
  }

  /** The number a row of decimal digits stands for. */
  function Numeral(t: Text): int {
    if t == [] then 0 else Numeral(t[..|t| - 1]) * 10 + (t[|t| - 1] as int - 48)
  }

  /** The digits stand for the number and start with a zero only for zero. */
  lemma {:induction false} DigitsRead(n: nat)
    ensures Numeral(Digits(n)) == n && (Digits(n)[0] == 48 <==> n == 0)
  {
    assert Numeral([]) == 0;
    if n < 10 {
      assert [48 + n][..0] == [];
    } else {
      DigitsRead(n / 10);
      assert Digits(n)[..|Digits(n)| - 1] == Digits(n / 10);
    }
  }

  function Decimal(n: int): (t: Text)
    ensures |t| > 0
  {
    if n < 0 then [45] + Digits(-n) else Digits(n)
  }

  lemma {:induction false} DigitsInjective(m: nat, n: nat)
    requires Digits(m) == Digits(n)
    ensures m == n
  {
    var a, b := Digits(m), Digits(n);
    assert a[|a| - 1] == b[|b| - 1];
    assert 48 + m % 10 == a[|a| - 1] && 48 + n % 10 == b[|b| - 1];
    assert a[..|a| - 1] == b[..|b| - 1];
    if m >= 10 && n >= 10 {
      assert a[..|a| - 1] == Digits(m / 10) && b[..|b| - 1] == Digits(n / 10);
      DigitsInjective(m / 10, n / 10);
    }
  }

  lemma DecimalInjective(m: int, n: int)
    requires Decimal(m) == Decimal(n)
    ensures m == n
  {
    assert m < 0 ==> Decimal(m)[1..] == Digits(-m);
    assert n < 0 ==> Decimal(n)[1..] == Digits(-n);
    assert m >= 0 ==> Decimal(m)[0] in Digits(m);
    assert n >= 0 ==> Decimal(n)[0] in Digits(n);
    assert (m < 0) == (n < 0);
    DigitsInjective(if m < 0 then -m else m, if n < 0 then -n else n);
  }
}
