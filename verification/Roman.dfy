/** base2-smartcontractbase/task1/Int2Roman.sol and Roman2Int.sol: a greedy printer, a parser
    whose subtraction is checked, and exactly where they are inverse to each other. */
module Roman {
  import opened Prelude

  datatype Row = Row(value: nat, symbol: string)

  /** The printer's value and symbol arrays, row by row. */
  const TABLE: seq<Row> := [
    Row(1000, "M"), Row(900, "CM"), Row(500, "D"), Row(400, "CD"), Row(100, "C"), Row(90, "XC"), Row(50, "L"),
    Row(40, "XL"), Row(10, "X"), Row(9, "IX"), Row(5, "V"), Row(4, "IV"), Row(1, "I")]

  function Repeat(c: char, k: nat): string {
    if k == 0 then "" else [c] + Repeat(c, k - 1)
  }

  /** One decimal digit in Roman letters. */
  function Digit(d: nat, one: char, five: char, ten: char): string
    requires d < 10
  {
    if d == 9 then [one, ten]
    else if d >= 5 then [five] + Repeat(one, d - 5)
    else if d == 4 then [one, five]
    else Repeat(one, d)
  }

  /** `k` thousands and three digits. */
  function Written(k: nat, h: nat, x: nat, o: nat): string
    requires h < 10 && x < 10 && o < 10
  {
    Repeat('M', k) + (Digit(h, 'C', 'D', 'M') + (Digit(x, 'X', 'L', 'C') + Digit(o, 'I', 'V', 'X')))
  }

  /** The Roman numeral of `n`, digit by digit. */
  function Numeral(n: nat): string {
    Written(n / 1000, n / 100 % 10, n / 10 % 10, n % 10)
  }

  /** Division by ten, and by ten once more. */
  lemma ByTen(m: nat)
    ensures m == m / 10 * 10 + m % 10
  {
  }

  lemma TensOf(n: nat)
    ensures n / 10 / 10 == n / 100
    ensures n % 100 == n / 10 % 10 * 10 + n % 10
  {
  }

  lemma HundredsOf(n: nat)
    ensures n / 100 / 10 == n / 1000
  {
  }

  lemma ThousandsOf(n: nat)
    ensures n % 1000 == n / 100 % 10 * 100 + n % 100
  {
    ByTen(n / 100);
    HundredsOf(n);
  }

  /** The digits of a number and what they add up to. */
  lemma Decimal(n: nat)
    ensures n / 100 == n / 1000 * 10 + n / 100 % 10
    ensures n / 10 == n / 100 * 10 + n / 10 % 10
    ensures n == n / 10 * 10 + n % 10
    ensures n % 1000 == n / 100 % 10 * 100 + n % 100
    ensures n % 100 == n / 10 % 10 * 10 + n % 10
  {
    ByTen(n);
    ByTen(n / 10);
    ByTen(n / 100);
    TensOf(n);
    HundredsOf(n);
    ThousandsOf(n);
  }

  // ---------- the printer ----------

  predicate Positive(table: seq<Row>) {
    forall k :: 0 <= k < |table| ==> table[k].value > 0
  }

  /** What the greedy loops still append from table row `i` on. */
  function Greedy(table: seq<Row>, n: nat, i: nat): string
    requires i <= |table| && Positive(table)
    decreases |table| - i, n
  {
    if i == |table| then ""
    else if n >= table[i].value then table[i].symbol + Greedy(table, n - table[i].value, i)
    else Greedy(table, n, i + 1)
  }

  /** Rows too large for `m` are passed over. */
  lemma {:induction false} GreedySkips(table: seq<Row>, m: nat, i: nat, j: nat)
    requires i <= j <= |table| && Positive(table)
    requires forall k :: i <= k < j ==> m < table[k].value
    ensures Greedy(table, m, i) == Greedy(table, m, j)
    decreases j - i
  {
    if i < j {
      GreedySkips(table, m, i + 1, j);
    }
  }

  lemma OneMore(k: nat, v: nat)
    requires k > 0
    ensures k * v == (k - 1) * v + v
  {
  }

  lemma GreedyTakes(table: seq<Row>, n: nat, i: nat)
    requires i < |table| && Positive(table)
    ensures Greedy(table, n + table[i].value, i) == table[i].symbol + Greedy(table, n, i)
  {
  }

  /** One more use of a one-letter row. */
  lemma GreedyOnce(table: seq<Row>, n: nat, i: nat, v: nat, c: char, k: nat, rest: string)
    requires i < |table| && Positive(table) && table[i] == Row(v, [c])
    requires Greedy(table, n, i) == Repeat(c, k) + rest
    ensures Greedy(table, n + v, i) == Repeat(c, k + 1) + rest
  {
    GreedyTakes(table, n, i);
    Regroup([c], Repeat(c, k), rest);
  }

  /** A one-letter row is used as often as its value fits. */
  lemma {:induction false} GreedyRepeats(table: seq<Row>, k: nat, m: nat, i: nat, v: nat, c: char)
    requires i < |table| && Positive(table) && table[i] == Row(v, [c]) && m < v
    ensures Greedy(table, k * v + m, i) == Repeat(c, k) + Greedy(table, m, i + 1)
  {
    if k > 0 {
      OneMore(k, v);
      GreedyRepeats(table, k - 1, m, i, v, c);
      GreedyOnce(table, (k - 1) * v + m, i, v, c, k - 1, Greedy(table, m, i + 1));
    }
  }

  /** Rows `i` to `i + 3` print the digit of unit `u`. */
  ghost predicate DigitRows(table: seq<Row>, i: nat, u: nat, one: char, five: char, ten: char) {
    && i + 3 < |table| && u > 0 && Positive(table)
    && table[i] == Row(9 * u, [one, ten])
    && table[i + 1] == Row(5 * u, [five])
    && table[i + 2] == Row(4 * u, [one, five])
    && table[i + 3] == Row(u, [one])
  }

  lemma GreedyUpToThree(
      table: seq<Row>, d: nat, n: nat, m: nat, i: nat, u: nat, one: char, five: char, ten: char)
    requires DigitRows(table, i, u, one, five, ten) && m < u
    requires n == d * u + m && d <= 3
    ensures Greedy(table, n, i) == Greedy(table, n, i + 1) == Repeat(one, d) + Greedy(table, m, i + 4)
  {
    assert d * u <= 3 * u;
    GreedySkips(table, n, i, i + 3);
    GreedySkips(table, n, i + 1, i + 3);
    GreedyRepeats(table, d, m, i + 3, u, one);
  }

  lemma GreedyNine(table: seq<Row>, m: nat, i: nat, u: nat, one: char, five: char, ten: char)
    requires DigitRows(table, i, u, one, five, ten) && m < u
    ensures Greedy(table, 9 * u + m, i) == [one, ten] + Greedy(table, m, i + 4)
  {
    GreedyTakes(table, m, i);
    GreedySkips(table, m, i, i + 4);
  }

  lemma GreedyFour(table: seq<Row>, m: nat, i: nat, u: nat, one: char, five: char, ten: char)
    requires DigitRows(table, i, u, one, five, ten) && m < u
    ensures Greedy(table, 4 * u + m, i) == [one, five] + Greedy(table, m, i + 4)
  {
    GreedySkips(table, 4 * u + m, i, i + 2);
    GreedyTakes(table, m, i + 2);
    GreedySkips(table, m, i + 2, i + 4);
  }

  lemma GreedyFiveUp(table: seq<Row>, d: nat, m: nat, i: nat, u: nat, one: char, five: char, ten: char)
    requires DigitRows(table, i, u, one, five, ten) && 5 <= d < 9 && m < u
    ensures Greedy(table, d * u + m, i) == [five] + Repeat(one, d - 5) + Greedy(table, m, i + 4)
  {
    var rest := (d - 5) * u + m;
    assert d * u + m == rest + 5 * u;
    assert (d - 5) * u <= 3 * u;
    GreedyUpToThree(table, d - 5, rest, m, i, u, one, five, ten);
    GreedySkips(table, rest + 5 * u, i, i + 1);
    GreedyTakes(table, rest, i + 1);
    Regroup([five], Repeat(one, d - 5), Greedy(table, m, i + 4));
  }

  /** One digit: nine and four by their pairs, the others by five and ones. */
  lemma GreedyDigit(table: seq<Row>, d: nat, m: nat, i: nat, u: nat, one: char, five: char, ten: char)
    requires DigitRows(table, i, u, one, five, ten) && d < 10 && m < u
    ensures Greedy(table, d * u + m, i) == Digit(d, one, five, ten) + Greedy(table, m, i + 4)
  {
    if d == 9 {
      GreedyNine(table, m, i, u, one, five, ten);
    } else if d >= 5 {
      GreedyFiveUp(table, d, m, i, u, one, five, ten);
    } else if d == 4 {
      GreedyFour(table, m, i, u, one, five, ten);
    } else {
      GreedyUpToThree(table, d, d * u + m, m, i, u, one, five, ten);
    }
  }

  lemma Regroup(a: string, b: string, c: string)
    ensures a + (b + c) == a + b + c
  {
  }

  /** The table prints thousands, then three digits. */
  ghost predicate RomanTable(table: seq<Row>) {
    && |table| == 13 && table[0] == Row(1000, "M")
    && DigitRows(table, 1, 100, 'C', 'D', 'M')
    && DigitRows(table, 5, 10, 'X', 'L', 'C')
    && DigitRows(table, 9, 1, 'I', 'V', 'X')
  }

  lemma TableRows()
    ensures RomanTable(TABLE)
  {
  }

  lemma GreedyTensOnes(table: seq<Row>, x: nat, o: nat)
    requires RomanTable(table) && x < 10 && o < 10
    ensures Greedy(table, 10 * x + o, 5) == Digit(x, 'X', 'L', 'C') + Digit(o, 'I', 'V', 'X')
  {
    GreedyDigit(table, x, o, 5, 10, 'X', 'L', 'C');
    GreedyDigit(table, o, 0, 9, 1, 'I', 'V', 'X');
    assert Digit(o, 'I', 'V', 'X') + Greedy(table, 0, 13) == Digit(o, 'I', 'V', 'X');
  }

  lemma GreedyByDigits(table: seq<Row>, k: nat, h: nat, x: nat, o: nat)
    requires RomanTable(table) && h < 10 && x < 10 && o < 10
    ensures Greedy(table, 1000 * k + 100 * h + 10 * x + o, 0) == Written(k, h, x, o)
  {
    GreedyRepeats(table, k, 100 * h + 10 * x + o, 0, 1000, 'M');
    GreedyDigit(table, h, 10 * x + o, 1, 100, 'C', 'D', 'M');
    GreedyTensOnes(table, x, o);
  }

  /** The greedy loops print the positional numeral, for every natural number. */
  lemma {:induction false} GreedyIsNumeral(n: nat)
    ensures Positive(TABLE) && Greedy(TABLE, n, 0) == Numeral(n)
  {
    Decimal(n);
    TableRows();
    GreedyByDigits(TABLE, n / 1000, n / 100 % 10, n / 10 % 10, n % 10);
  }

  /** The nested loops of `intToRoman`, without its range check, over any table. */
  method RunLoops(num: nat, table: seq<Row>) returns (result: string)
    requires Positive(table)
    ensures result == Greedy(table, num, 0)
  {
    var rest: nat := num;
    result := "";
    var i := 0;
    while i < |table|
      invariant 0 <= i <= |table|
      invariant result + Greedy(table, rest, i) == Greedy(table, num, 0)
    {
      while rest >= table[i].value
        invariant result + Greedy(table, rest, i) == Greedy(table, num, 0)
      {
        Regroup(result, table[i].symbol, Greedy(table, rest - table[i].value, i));
        result := result + table[i].symbol;
        rest := rest - table[i].value;
      }
      if rest == 0 {
        GreedySkips(table, 0, i, |table|);
        break;
      }
      i := i + 1;
    }
  }

  /** `intToRoman`: its range check, then the loops. */
  method IntToRoman(num: U256) returns (r: Option<string>)
    ensures r == if 1 <= num <= 3999 then Some(Numeral(num)) else None
  {
    if !(num >= 1 && num <= 3999) { return None; }
    GreedyIsNumeral(num);
    var printed := RunLoops(num, TABLE);
    return Some(printed);
  }

  // ---------- the parser ----------

  /** `getValue`; any other character reverts. */
  function Letter(c: char): Option<nat> {
    if c == 'I' then Some(1)
    else if c == 'V' then Some(5)
    else if c == 'X' then Some(10)
    else if c == 'L' then Some(50)
    else if c == 'C' then Some(100)
    else if c == 'D' then Some(500)
    else if c == 'M' then Some(1000)
    else None
  }

  ghost predicate AllLetters(s: string) {
    forall k :: 0 <= k < |s| ==> Letter(s[k]).Some?
  }

  /** The signed contribution of position `k`: negative before a larger letter. */
  ghost function Term(s: string, k: nat): int
    requires AllLetters(s) && k < |s|
  {
    var v: int := Letter(s[k]).value;
    if k + 1 < |s| && v < Letter(s[k + 1]).value then -v else v
  }

  /** The signed sum of the first `k` positions. */
  ghost function Partial(s: string, k: nat): int
    requires AllLetters(s) && k <= |s|
  {
    if k == 0 then 0 else Partial(s, k - 1) + Term(s, k - 1)
  }

  /** The loop of `romanToInt` without the size guards: `total` so far, then the rest of the
      string; None is a revert. */
  function Parse(s: string, total: nat): Option<nat> {
    if s == "" then Some(total)
    else
      match Letter(s[0])
      case None => None
      case Some(v) =>
        if |s| == 1 then Some(total + v)
        else
          match Letter(s[1])
          case None => None
          case Some(w) =>
            if w <= v then Parse(s[1..], total + v)
            else if total < v then None
            else Parse(s[1..], total - v)
  }

  /** `romanToInt` as a whole. */
  function Accepted(s: string): Option<nat> {
    if !(1 <= |s| <= 15) then None
    else
      match Parse(s, 0)
      case None => None
      case Some(v) => if 1 <= v <= 3999 then Some(v) else None
  }

  /** A step of the loop at position `i`. */
  lemma ParseStep(s: string, i: nat, total: nat)
    requires i < |s|
    ensures Parse(s[i..], total) ==
            (match Letter(s[i])
             case None => None
             case Some(v) =>
               if i + 1 == |s| then Some(total + v)
               else
                 match Letter(s[i + 1])
                 case None => None
                 case Some(w) =>
                   if w <= v then Parse(s[i + 1..], total + v)
                   else if total < v then None
                   else Parse(s[i + 1..], total - v))
  {
    assert s[i..][1..] == s[i + 1..];
  }

  method RomanToInt(s: string) returns (r: Option<nat>)
    ensures r == Accepted(s)
  {
    var length := |s|;
    if !(length > 0 && length <= 15) { return None; }
    var total: U256 := 0;
    assert s[0..] == s;
    for i := 0 to length
      invariant total <= 1000 * i
      invariant Parse(s[i..], total) == Parse(s, 0)
    {
      ParseStep(s, i, total);
      var value := Letter(s[i]);
      if value == None { return None; }
      var subtract := false;
      if i < length - 1 {
        var next := Letter(s[i + 1]);
        if next == None { return None; }
        subtract := value.value < next.value;
      }
      if subtract {
        if total < value.value { return None; }
        total := total - value.value;
      } else {
        total := total + value.value;
      }
    }
    if !(total >= 1 && total <= 3999) { return None; }
    return Some(total);
  }

  /** No signed partial sum from position `i` on is negative. */
  ghost predicate NeverNegative(s: string, i: nat)
    requires AllLetters(s) && i <= |s|
  {
    forall k :: i <= k <= |s| ==> Partial(s, k) >= 0
  }

  /** What the parser accepts and answers: a string of letters none of whose signed partial
      sums is negative, and its signed sum. */
  lemma ParseExact(s: string, v: nat)
    ensures Parse(s, 0) == Some(v) <==> AllLetters(s) && NeverNegative(s, 0) && Partial(s, |s|) == v
  {
    assert s[0..] == s;
    if AllLetters(s) {
      ParseFrom(s, 0);
    } else {
      NoLetterNoParse(s, 0);
    }
  }

  lemma {:induction false} NoLetterNoParse(s: string, total: nat)
    requires !AllLetters(s)
    ensures Parse(s, total) == None
  {
    if Letter(s[0]).Some? {
      assert !AllLetters(s[1..]) by {
        var k :| 0 <= k < |s| && Letter(s[k]) == None;
        assert s[1..][k - 1] == s[k];
      }
      forall t: nat
        ensures Parse(s[1..], t) == None
      {
        NoLetterNoParse(s[1..], t);
      }
    }
  }

  /** A step of the loop over letters adds the signed contribution, or reverts below zero. */
  lemma ParseTerm(s: string, i: nat, total: nat)
    requires AllLetters(s) && i < |s|
    ensures Parse(s[i..], total) ==
            if total + Term(s, i) < 0 then None else Parse(s[i + 1..], total + Term(s, i))
  {
    ParseStep(s, i, total);
    assert i + 1 == |s| ==> s[i + 1..] == "";
  }

  lemma NeverNegativeStep(s: string, i: nat)
    requires AllLetters(s) && i < |s| && Partial(s, i) >= 0
    ensures NeverNegative(s, i) <==> NeverNegative(s, i + 1)
    ensures Partial(s, i + 1) < 0 ==> !NeverNegative(s, i)
  {
  }

  lemma {:induction false} ParseFrom(s: string, i: nat)
    requires AllLetters(s) && i <= |s| && Partial(s, i) >= 0
    ensures Parse(s[i..], Partial(s, i)) == if NeverNegative(s, i) then Some(Partial(s, |s|)) else None
    decreases |s| - i
  {
    if i < |s| {
      ParseTerm(s, i, Partial(s, i));
      NeverNegativeStep(s, i);
      if Partial(s, i + 1) >= 0 {
        ParseFrom(s, i + 1);
      }
    }
  }

  // ---------- round trip ----------

  lemma ParseFirst(s: string, t: nat)
    requires AllLetters(s) && s != ""
    ensures Parse(s, t) == if t + Term(s, 0) < 0 then None else Parse(s[1..], t + Term(s, 0))
  {
    assert s[0..] == s;
    ParseTerm(s, 0, t);
  }

  /** The first letter of `a` counts in `a + b` as it does in `a`. */
  lemma SameHead(a: string, b: string)
    requires AllLetters(a) && AllLetters(b) && a != ""
    requires b != "" ==> Letter(b[0]).value <= Letter(a[|a| - 1]).value
    ensures AllLetters(a + b) && AllLetters(a[1..]) && Term(a + b, 0) == Term(a, 0)
    ensures (a + b)[1..] == a[1..] + b
    ensures a[1..] != "" ==> a[1..][|a| - 2] == a[|a| - 1]
  {
  }

  /** Parsing in two parts, when the seam is not inside a subtractive pair. */
  lemma {:induction false} ParseConcat(a: string, b: string, t: nat)
    requires AllLetters(a) && AllLetters(b)
    requires a != "" && b != "" ==> Letter(b[0]).value <= Letter(a[|a| - 1]).value
    ensures Parse(a + b, t) ==
            match Parse(a, t) { case None => None case Some(u) => Parse(b, u) }
  {
    if a == "" {
      assert a + b == b;
    } else {
      SameHead(a, b);
      ParseFirst(a, t);
      ParseFirst(a + b, t);
      if t + Term(a, 0) >= 0 {
        ParseConcat(a[1..], b, t + Term(a, 0));
      }
    }
  }

  lemma {:induction false} ParseThousands(k: nat, t: nat)
    ensures Parse(Repeat('M', k), t) == Some(t + 1000 * k)
    ensures AllLetters(Repeat('M', k))
    ensures k > 0 ==> Repeat('M', k)[|Repeat('M', k)| - 1] == 'M'
  {
    if k > 0 {
      ParseThousands(k - 1, t + 1000);
      assert Repeat('M', k)[1..] == Repeat('M', k - 1);
    }
  }

  /** The letters of a decade. */
  ghost predicate Decade(one: char, five: char, ten: char, u: nat) {
    && u > 0
    && Letter(one) == Some(u)
    && Letter(five) == Some(5 * u)
    && Letter(ten) == Some(10 * u)
  }

  /** A digit adds its value, except that 4 and 9 first subtract one unit, which reverts if
      the total is smaller. */
  lemma ParseDigit(d: nat, one: char, five: char, ten: char, u: nat, t: nat)
    requires d < 10 && Decade(one, five, ten, u)
    ensures Parse(Digit(d, one, five, ten), t) ==
            if (d == 4 || d == 9) && t < u then None else Some(t + d * u)
  {
    if d == 9 || d == 4 {
      assert Digit(d, one, five, ten)[1..] == [if d == 9 then ten else five];
    } else if d >= 5 {
      assert Digit(d, one, five, ten)[1..] == Repeat(one, d - 5);
      ParseRepeats(d - 5, one, u, t + 5 * u);
    } else {
      ParseRepeats(d, one, u, t);
    }
  }

  lemma ParseOne(k: nat, one: char, u: nat, t: nat)
    requires Letter(one) == Some(u) && k > 0
    ensures Parse(Repeat(one, k), t) == Parse(Repeat(one, k - 1), t + u)
  {
    assert Repeat(one, k)[1..] == Repeat(one, k - 1);
  }

  lemma {:induction false} ParseRepeats(k: nat, one: char, u: nat, t: nat)
    requires Letter(one) == Some(u)
    ensures Parse(Repeat(one, k), t) == Some(t + k * u)
  {
    if k > 0 {
      ParseOne(k, one, u, t);
      OneMore(k, u);
      ParseRepeats(k - 1, one, u, t + u);
    }
  }

  /** First and last letters of a digit. */
  lemma DigitEnds(d: nat, one: char, five: char, ten: char, u: nat)
    requires d < 10 && Decade(one, five, ten, u)
    ensures var s := Digit(d, one, five, ten);
            && |s| <= 4
            && (s == "" <==> d == 0)
            && AllLetters(s)
            && (s != "" ==> Letter(s[0]).value <= 5 * u && u <= Letter(s[|s| - 1]).value)
  {
    if d != 9 && d != 4 {
      RepeatEntries(one, if d >= 5 then d - 5 else d);
    }
  }

  lemma {:induction false} RepeatEntries(c: char, k: nat)
    ensures |Repeat(c, k)| == k && forall j :: 0 <= j < k ==> Repeat(c, k)[j] == c
  {
    if k > 0 {
      RepeatEntries(c, k - 1);
    }
  }

  predicate IsFourOrNine(d: nat) { d == 4 || d == 9 }

  /** Letters that begin no higher than `bound`. */
  ghost predicate LettersUpTo(s: string, bound: nat) {
    AllLetters(s) && (s != "" ==> Letter(s[0]).value <= bound)
  }

  lemma JoinLetters(a: string, b: string, bound: nat)
    requires LettersUpTo(a, bound) && LettersUpTo(b, bound)
    ensures LettersUpTo(a + b, bound)
  {
  }

  /** A digit and what follows it in smaller letters. */
  lemma ParseDigitThen(d: nat, one: char, five: char, ten: char, u: nat, rest: string, t: nat)
    requires d < 10 && Decade(one, five, ten, u) && LettersUpTo(rest, u)
    ensures var s := Digit(d, one, five, ten) + rest;
            && LettersUpTo(s, 5 * u)
            && Parse(s, t) == if IsFourOrNine(d) && t < u then None else Parse(rest, t + d * u)
  {
    DigitEnds(d, one, five, ten, u);
    JoinLetters(Digit(d, one, five, ten), rest, 5 * u);
    ParseConcat(Digit(d, one, five, ten), rest, t);
    ParseDigit(d, one, five, ten, u, t);
  }

  /** `s` parses as two digits do: a pair reverts if the total before it is too small. */
  ghost predicate ParsesTwo(s: string, x: nat, o: nat, t: nat) {
    && LettersUpTo(s, 50)
    && Parse(s, t) == if (IsFourOrNine(x) && t < 10) || (IsFourOrNine(o) && t + 10 * x < 1)
                      then None else Some(t + 10 * x + o)
  }

  ghost predicate ParsesThree(s: string, h: nat, x: nat, o: nat, t: nat) {
    && LettersUpTo(s, 500)
    && Parse(s, t) == if || (IsFourOrNine(h) && t < 100)
                         || (IsFourOrNine(x) && t + 100 * h < 10)
                         || (IsFourOrNine(o) && t + 100 * h + 10 * x < 1)
                      then None else Some(t + 100 * h + 10 * x + o)
  }

  lemma ParseTensThen(x: nat, ones: string, o: nat, t: nat)
    requires x < 10 && LettersUpTo(ones, 10)
    requires Parse(ones, t + 10 * x) == if IsFourOrNine(o) && t + 10 * x < 1 then None else Some(t + 10 * x + o)
    ensures ParsesTwo(Digit(x, 'X', 'L', 'C') + ones, x, o, t)
  {
    ParseDigitThen(x, 'X', 'L', 'C', 10, ones, t);
  }

  lemma ParseHundredsThen(h: nat, low: string, x: nat, o: nat, t: nat)
    requires h < 10 && ParsesTwo(low, x, o, t + 100 * h)
    ensures ParsesThree(Digit(h, 'C', 'D', 'M') + low, h, x, o, t)
  {
    ParseDigitThen(h, 'C', 'D', 'M', 100, low, t);
  }

  lemma ParseThousandsThen(k: nat, rest: string, t: nat)
    requires LettersUpTo(rest, 1000)
    ensures Parse(Repeat('M', k) + rest, t) == Parse(rest, t + 1000 * k)
  {
    ParseThousands(k, t);
    ParseConcat(Repeat('M', k), rest, t);
  }

  lemma ParseTwo(x: nat, o: nat, t: nat)
    requires x < 10 && o < 10
    ensures ParsesTwo(Digit(x, 'X', 'L', 'C') + Digit(o, 'I', 'V', 'X'), x, o, t)
  {
    DigitEnds(o, 'I', 'V', 'X', 1);
    ParseDigit(o, 'I', 'V', 'X', 1, t + 10 * x);
    ParseTensThen(x, Digit(o, 'I', 'V', 'X'), o, t);
  }

  /** Parsing a written number behind a total of `t`. */
  lemma ParseWritten(k: nat, h: nat, x: nat, o: nat, t: nat)
    requires h < 10 && x < 10 && o < 10
    ensures Parse(Written(k, h, x, o), t) ==
            if || (IsFourOrNine(h) && t + 1000 * k < 100)
               || (IsFourOrNine(x) && t + 1000 * k + 100 * h < 10)
               || (IsFourOrNine(o) && t + 1000 * k + 100 * h + 10 * x < 1)
            then None else Some(t + 1000 * k + 100 * h + 10 * x + o)
  {
    var low := Digit(x, 'X', 'L', 'C') + Digit(o, 'I', 'V', 'X');
    ParseTwo(x, o, t + 1000 * k + 100 * h);
    ParseHundredsThen(h, low, x, o, t + 1000 * k);
    ParseThousandsThen(k, Digit(h, 'C', 'D', 'M') + low, t);
  }

  function LeadingDigit(n: nat): nat {
    if n < 10 then n else LeadingDigit(n / 10)
  }

  /** The numbers whose numeral begins with a two-letter pair. */
  predicate StartsWithPair(n: nat) {
    n < 1000 && IsFourOrNine(LeadingDigit(n))
  }

  /** The leading digit, place by place. */
  lemma LeadingDigitOf(n: nat)
    requires n < 1000
    ensures LeadingDigit(n) ==
            if n / 100 % 10 > 0 then n / 100 % 10 else if n / 10 % 10 > 0 then n / 10 % 10 else n % 10
  {
    Decimal(n);
    if n >= 100 {
      TensOf(n);
      assert LeadingDigit(n) == LeadingDigit(n / 10) == LeadingDigit(n / 100);
    } else {
      assert n / 100 == 0;
    }
  }

  /** The round trip, exactly: parsing a printed number gives it back unless its numeral
      begins with a pair, and then the checked subtraction reverts. */
  lemma {:induction false} RoundTrip(n: nat)
    requires n >= 1
    ensures Parse(Numeral(n), 0) == if StartsWithPair(n) then None else Some(n)
  {
    Decimal(n);
    ParseWritten(n / 1000, n / 100 % 10, n / 10 % 10, n % 10, 0);
    if n < 1000 {
      LeadingDigitOf(n);
    }
  }

  /** The first two letters are a subtractive pair. */
  predicate PairFirst(s: string) {
    |s| >= 2 &&
    match (Letter(s[0]), Letter(s[1]))
    case (Some(v), Some(w)) => v < w
    case _ => false
  }

  /** "Begins with a pair" read off the numeral itself. */
  lemma StartsWithPairMeaning(n: nat)
    requires n >= 1
    ensures StartsWithPair(n) <==> PairFirst(Numeral(n))
  {
    RoundTrip(n);
    if StartsWithPair(n) {
      PairOpensNumeral(n);
    }
  }

  /** A digit 4 or 9 begins with a pair, whatever follows it. */
  lemma PairOpens(d: nat, one: char, five: char, ten: char, u: nat, rest: string)
    requires IsFourOrNine(d) && Decade(one, five, ten, u)
    ensures PairFirst(Digit(d, one, five, ten) + rest)
  {
  }

  lemma PairOpensNumeral(n: nat)
    requires n >= 1 && StartsWithPair(n)
    ensures PairFirst(Numeral(n))
  {
    LeadingDigitOf(n);
    Decimal(n);
    var h, x, o := n / 100 % 10, n / 10 % 10, n % 10;
    var ones, tens := Digit(o, 'I', 'V', 'X'), Digit(x, 'X', 'L', 'C');
    if h > 0 {
      PairOpens(h, 'C', 'D', 'M', 100, tens + ones);
      assert Numeral(n) == Digit(h, 'C', 'D', 'M') + (tens + ones);
    } else if x > 0 {
      PairOpens(x, 'X', 'L', 'C', 10, ones);
      assert Numeral(n) == tens + ones;
    } else {
      PairOpens(o, 'I', 'V', 'X', 1, "");
      assert Numeral(n) == ones + "";
    }
  }

  /** Different numbers print differently, whether or not they can be parsed back. */
  lemma NumeralInjective(n: nat, m: nat)
    requires Numeral(n) == Numeral(m)
    ensures n == m
  {
    Decimal(n);
    Decimal(m);
    ParseWritten(n / 1000, n / 100 % 10, n / 10 % 10, n % 10, 1000);
    ParseWritten(m / 1000, m / 100 % 10, m / 10 % 10, m % 10, 1000);
  }

  lemma PrintedLength(n: nat)
    requires 1 <= n <= 3999
    ensures 1 <= |Numeral(n)| <= 15
  {
    Decimal(n);
    RepeatEntries('M', n / 1000);
    DigitEnds(n / 100 % 10, 'C', 'D', 'M', 100);
    DigitEnds(n / 10 % 10, 'X', 'L', 'C', 10);
    DigitEnds(n % 10, 'I', 'V', 'X', 1);
  }

  /** The parser knows exactly the letters the printer's table has, with the same values. */
  lemma LetterExact(c: char, v: nat)
    ensures Letter(c) == Some(v) <==> Row(v, [c]) in TABLE
  {
    if Row(v, [c]) in TABLE {
      LetterOfRow(c, v);
    }
    if Letter(c) == Some(v) {
      RowOfLetter(c, v);
    }
  }

  lemma LetterOfRow(c: char, v: nat)
    requires Row(v, [c]) in TABLE
    ensures Letter(c) == Some(v)
  {
    var k :| 0 <= k < |TABLE| && TABLE[k] == Row(v, [c]);
    assert |TABLE[k].symbol| == 1 && TABLE[k].symbol[0] == c;
    RowLetter(k);
  }

  lemma RowLetter(k: nat)
    requires k < |TABLE| && |TABLE[k].symbol| == 1
    ensures Letter(TABLE[k].symbol[0]) == Some(TABLE[k].value)
  {
    assert |TABLE| == 13;
    assert k != 1 && k != 3 && k != 5 && k != 7 && k != 9 && k != 11;
  }

  lemma RowOfLetter(c: char, v: nat)
    requires Letter(c) == Some(v)
    ensures Row(v, [c]) in TABLE
  {
    assert TABLE[0] == Row(1000, "M") && TABLE[2] == Row(500, "D") && TABLE[4] == Row(100, "C");
    assert TABLE[6] == Row(50, "L") && TABLE[8] == Row(10, "X") && TABLE[10] == Row(5, "V") && TABLE[12] == Row(1, "I");
  }

  /** What `romanToInt` accepts: 1 to 15 letters, no negative signed partial sum, and a sum
      from 1 to 3999, which it answers. */
  lemma AcceptedExact(s: string, v: nat)
    ensures Accepted(s) == Some(v) <==>
            && 1 <= |s| <= 15 && 1 <= v <= 3999
            && AllLetters(s) && NeverNegative(s, 0) && Partial(s, |s|) == v
  {
    ParseExact(s, v);
  }

  /** The two contract functions composed: `romanToInt(intToRoman(n))`. */
  lemma ContractRoundTrip(n: nat)
    requires 1 <= n <= 3999
    ensures Accepted(Numeral(n)) == if StartsWithPair(n) then None else Some(n)
  {
    PrintedLength(n);
    RoundTrip(n);
  }
}
