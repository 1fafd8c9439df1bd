/** Strings, decimal numerals and concatenation: the vocabulary shared by the models. */
module Text {

  datatype Option<+T> = None | Some(value: T)

  /** The decimal digit for d, as printed by a stream. */
  function Digit(d: nat): char
    requires d < 10
  {
    (('0' as int) + d) as char
  }

  /** What `ostream << n` prints for a non-negative number. */
  function Decimal(n: nat): string {
    if n < 10 then [Digit(n)] else Decimal(n / 10) + [Digit(n % 10)]
  }

  /** What `setfill('0') << setw(width) << n` prints. */
  function Padded(n: nat, width: nat): string {
    var digits := Decimal(n);
    if |digits| < width then seq(width - |digits|, _ => '0') + digits else digits
  }

  predicate IsDigit(c: char) { '0' <= c <= '9' }

  predicate AllDigits(s: string) { forall i | 0 <= i < |s| :: IsDigit(s[i]) }

  lemma {:induction false} DecimalIsDigits(n: nat)
    ensures AllDigits(Decimal(n)) && Decimal(n) != ""
  {
    if n >= 10 { DecimalIsDigits(n / 10); }
  }

  /** The number a string of decimal digits stands for, read from left to right. */
  function Number(s: string): nat
    requires AllDigits(s)
  {
    if s == "" then 0 else 10 * Number(s[..|s| - 1]) + (s[|s| - 1] as int - 48)
  }

  /** Digits without a leading zero that stand for n. */
  predicate IsNumeral(s: string, n: int) {
    s != "" && AllDigits(s) && Number(s) == n && (s[0] == '0' ==> s == "0")
  }

  lemma {:induction false} DecimalIsNumeral(n: nat)
    ensures IsNumeral(Decimal(n), n)
  {
    if n < 10 {
      assert Decimal(n)[..0] == "";
    } else {
      DecimalIsNumeral(n / 10);
      DecimalIsDigits(n);
      assert Decimal(n)[..|Decimal(n)| - 1] == Decimal(n / 10);
      assert Decimal(n / 10) != "0" by { assert Number("0") == 0 by { assert "0"[..0] == ""; } }
    }
  }

  lemma {:induction false} ZerosAddNothing(zeros: nat, s: string)
    requires AllDigits(s)
    ensures AllDigits(seq(zeros, _ => '0') + s) && Number(seq(zeros, _ => '0') + s) == Number(s)
    decreases |s|, zeros
  {
    var z := seq(zeros, _ => '0');
    if s != "" {
      ZerosAddNothing(zeros, s[..|s| - 1]);
      assert (z + s)[..|z + s| - 1] == z + s[..|s| - 1];
    } else if zeros > 0 {
      ZerosAddNothing(zeros - 1, s);
      assert (z + s)[..|z + s| - 1] == seq(zeros - 1, _ => '0') + s;
    }
  }

  /** A padded numeral stands for its number and has at least the width asked for. */
  lemma PaddedIsNumber(n: nat, width: nat)
    ensures AllDigits(Padded(n, width)) && Number(Padded(n, width)) == n
    ensures |Padded(n, width)| == if |Decimal(n)| < width then width else |Decimal(n)|
  {
    DecimalIsNumeral(n);
    ZerosAddNothing(if |Decimal(n)| < width then width - |Decimal(n)| else 0, Decimal(n));
    assert seq(0, _ => '0') + Decimal(n) == Decimal(n);
  }

  lemma PaddedIsDigits(n: nat, width: nat)
    ensures AllDigits(Padded(n, width))
  {
    DecimalIsDigits(n);
  }

  lemma {:induction false} DecimalInjective(m: nat, n: nat)
    requires Decimal(m) == Decimal(n)
    ensures m == n
  {
    DecimalIsDigits(m / 10);
    DecimalIsDigits(n / 10);
    if m >= 10 && n >= 10 {
      var a, b := Decimal(m), Decimal(n);
      assert a[..|a| - 1] == Decimal(m / 10) && a[|a| - 1] == Digit(m % 10);
      assert b[..|b| - 1] == Decimal(n / 10) && b[|b| - 1] == Digit(n % 10);
      DecimalInjective(m / 10, n / 10);
    }
  }

  function Flatten<T>(pieces: seq<seq<T>>): seq<T> {
    if pieces == [] then [] else pieces[0] + Flatten(pieces[1..])
  }

  lemma {:induction false} FlattenAppend<T>(a: seq<seq<T>>, b: seq<seq<T>>)
    ensures Flatten(a + b) == Flatten(a) + Flatten(b)
  {
    if a == [] {
      assert a + b == b;
    } else {
      assert (a + b)[1..] == a[1..] + b;
      FlattenAppend(a[1..], b);
    }
  }

  lemma FlattenOne<T>(piece: seq<T>)
    ensures Flatten([piece]) == piece
  {
    assert [piece][1..] == [];
    assert Flatten<T>([]) == [];
  }

  lemma FlattenSnoc<T>(a: seq<seq<T>>, last: seq<T>)
    ensures Flatten(a + [last]) == Flatten(a) + last
  {
    FlattenAppend(a, [last]);
    FlattenOne(last);
  }

  /** The position of the first c in s, or |s| when there is none. */
  function IndexOf(s: string, c: char): (i: nat)
    ensures i <= |s|
    ensures i < |s| ==> s[i] == c
    ensures c !in s[..i]
  {
    if s == "" then 0
    else if s[0] == c then 0
    else
      var i := 1 + IndexOf(s[1..], c);
      assert s[..i] == [s[0]] + s[1..][..i - 1];
      i
  }

  /** Only one position can be the first c. */
  lemma IndexOfIs(s: string, c: char, i: nat)
    requires i <= |s| && c !in s[..i] && (i < |s| ==> s[i] == c)
    ensures IndexOf(s, c) == i
  {
    var j := IndexOf(s, c);
    assert forall k | 0 <= k < i :: s[k] == s[..i][k] != c;
    assert forall k | 0 <= k < j :: s[k] == s[..j][k] != c;
  }
}
