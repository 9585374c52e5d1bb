// The text both recursive queries carry to avoid revisiting a node: a comma-delimited
// list of ids, tested by substring search.
module VisitedGuard {
  function Digit(d: nat): char
    requires d < 10
  {
    "0123456789"[d]
  }

  function Digits(n: nat): (s: string)
    ensures s != [] && ',' !in s && '-' !in s
  {
    if n < 10 then [Digit(n)] else Digits(n / 10) + [Digit(n % 10)]
  }

  // The text SQLite concatenates for an integer.
  function Decimal(n: int): (s: string)
    ensures s != [] && ',' !in s
  {
    if n < 0 then "-" + Digits(-n) else Digits(n)
  }

  // The visited column after the given ids were appended.
  function Encode(ids: seq<int>): (s: string)
    ensures s != [] && s[0] == ','
  {
    if ids == [] then "," else "," + Decimal(ids[0]) + Encode(ids[1..])
  }

  predicate ContainsAt(s: string, sub: string, k: nat) {
    k + |sub| <= |s| && s[k..k + |sub|] == sub
  }

  // s LIKE '%sub%' for a sub without wildcards.
  predicate Contains(s: string, sub: string) {
    exists k: nat :: k <= |s| && ContainsAt(s, sub, k)
  }

  function Pattern(id: int): string {
    "," + Decimal(id) + ","
  }

  lemma {:induction false} DigitsInjective(m: nat, n: nat)
    requires Digits(m) == Digits(n)
    ensures m == n
  {
    var s := Digits(m);
    var lm, ln := Digit(m % 10), Digit(n % 10);
    assert s[|s| - 1] == lm && s[|s| - 1] == ln;
    if m >= 10 && n >= 10 {
      assert Digits(m / 10) == s[..|s| - 1] == Digits(n / 10);
      DigitsInjective(m / 10, n / 10);
    }
  }

  // The number a text of digits stands for.
  function NumberOf(s: string): int {
    if s == "" then 0 else 10 * NumberOf(s[..|s| - 1]) + (s[|s| - 1] as int - '0' as int)
  }

  predicate AreDigits(s: string) {
    forall i :: 0 <= i < |s| ==> '0' <= s[i] <= '9'
  }

  lemma DigitReads(d: nat)
    requires d < 10
    ensures '0' <= Digit(d) <= '9' && Digit(d) as int - '0' as int == d
  {
  }

  lemma ReadsAppended(s: string, c: char)
    ensures NumberOf(s + [c]) == 10 * NumberOf(s) + (c as int - '0' as int)
  {
    assert (s + [c])[..|s|] == s;
  }

  lemma {:induction false} DigitsRead(n: nat)
    ensures AreDigits(Digits(n)) && NumberOf(Digits(n)) == n
    ensures Digits(n)[0] == '0' ==> n == 0
  {
    DigitReads(n % 10);
    if n < 10 {
      ReadsAppended("", Digit(n));
      assert "" + [Digit(n)] == Digits(n);
    } else {
      DigitsRead(n / 10);
      ReadsAppended(Digits(n / 10), Digit(n % 10));
    }
  }

  // The text is the decimal numeral of the integer: a minus sign for a negative one, and
  // digits, without leading zeros, that read back as it.
  lemma DecimalReadsBack(n: int)
    ensures n >= 0 ==> AreDigits(Decimal(n)) && NumberOf(Decimal(n)) == n
    ensures n < 0 ==> Decimal(n)[0] == '-' && AreDigits(Decimal(n)[1..]) && NumberOf(Decimal(n)[1..]) == -n
    ensures n > 0 ==> Decimal(n)[0] != '0'
  {
    DigitsRead(if n < 0 then -n else n);
    if n < 0 {
      assert Decimal(n)[1..] == Digits(-n);
    }
  }

  lemma DecimalInjective(m: int, n: int)
    requires Decimal(m) == Decimal(n)
    ensures m == n
  {
    if m < 0 && n < 0 {
      assert Digits(-m) == Decimal(m)[1..] == Decimal(n)[1..] == Digits(-n);
      DigitsInjective(-m, -n);
    } else if m >= 0 && n >= 0 {
      DigitsInjective(m, n);
    }
  }

  // Appending one more id is what the recursive step writes.
  lemma {:induction false} EncodeAppend(ids: seq<int>, id: int)
    ensures Encode(ids + [id]) == Encode(ids) + Decimal(id) + ","
  {
    if ids == [] {
      assert Encode([id]) == "," + Decimal(id) + Encode([]);
    } else {
      assert (ids + [id])[1..] == ids[1..] + [id];
      EncodeAppend(ids[1..], id);
    }
  }

  // An occurrence inside a suffix is an occurrence in the whole text.
  lemma ContainsInSuffix(s: string, m: nat, sub: string)
    requires m <= |s| && Contains(s[m..], sub)
    ensures Contains(s, sub)
  {
    var k: nat :| k <= |s[m..]| && ContainsAt(s[m..], sub, k);
    assert s[m + k..m + k + |sub|] == s[m..][k..k + |sub|];
    assert ContainsAt(s, sub, m + k);
  }

  // The substring test is exact set membership: no id is hidden inside another's digits.
  lemma {:induction false} GuardIsMembership(ids: seq<int>, id: int)
    ensures Contains(Encode(ids), Pattern(id)) <==> id in ids
  {
    if ids == [] {
      assert |Encode(ids)| == 1 < |Pattern(id)|;
    } else {
      GuardIsMembership(ids[1..], id);
      FirstOrLater(Decimal(ids[0]), Encode(ids[1..]), id);
      if Decimal(id) == Decimal(ids[0]) {
        DecimalInjective(id, ids[0]);
      }
    }
  }

  lemma FirstOrLater(x: string, rest: string, id: int)
    requires rest != [] && rest[0] == ',' && ',' !in x
    ensures Contains("," + x + rest, Pattern(id)) <==> Decimal(id) == x || Contains(rest, Pattern(id))
  {
    var s, p := "," + x + rest, Pattern(id);
    if Contains(s, p) {
      var k: nat :| k <= |s| && ContainsAt(s, p, k);
      OccurrenceStart(s, x, rest, id, k);
    }
    if Decimal(id) == x {
      assert s[0..|p|] == p;
      assert ContainsAt(s, p, 0);
    }
    if Contains(rest, p) {
      assert s[|x| + 1..] == rest;
      ContainsInSuffix(s, |x| + 1, p);
    }
  }

  // An occurrence is either the first token itself or lies after it.
  lemma OccurrenceStart(s: string, x: string, rest: string, id: int, k: nat)
    requires s == "," + x + rest && rest != [] && rest[0] == ',' && ',' !in x
    requires ContainsAt(s, Pattern(id), k)
    ensures (k == 0 && Decimal(id) == x) || Contains(rest, Pattern(id))
  {
    var p, y, m := Pattern(id), Decimal(id), 1 + |x|;
    assert forall i :: 0 <= i < |p| ==> s[k + i] == p[i];
    assert forall i :: 0 < i < m ==> s[i] == x[i - 1];
    assert s[k] == p[0] == ',';
    if k == 0 {
      assert p[|y| + 1] == ',' && s[m] == ',';
      assert forall i :: 0 < i <= |y| ==> p[i] == y[i - 1];
      assert |x| == |y|;
      forall i | 0 <= i < |y|
        ensures y[i] == x[i]
      {
        assert y[i] == p[i + 1] == s[i + 1];
      }
    } else {
      assert k >= m;
      assert s[m..] == rest;
      assert rest[k - m..k - m + |p|] == s[m..][k - m..k - m + |p|] == s[k..k + |p|];
      assert ContainsAt(rest, p, k - m);
    }
  }
}
