/** Text keys of stored edges, `from:to:type`, and the textual scan that looks for the
    edges of a node.
 */
module EdgeKeys {

  // ---- Decimal numbers ----

  function Digit(d: nat): char
    requires d < 10
  {
    "0123456789"[d]
  }

  function DigitValue(c: char): int {
    c as int - '0' as int
  }

  function Digits(n: nat): string {
    if n < 10 then [Digit(n)] else Digits(n / 10) + [Digit(n % 10)]
  }

  function Decimal(n: int): string {
    if n < 0 then "-" + Digits(-n) else Digits(n)
  }

  function ParseDigits(s: string): int {
    if s == "" then 0 else 10 * ParseDigits(s[..|s| - 1]) + DigitValue(s[|s| - 1])
  }

  function Parse(s: string): int {
    if s != "" && s[0] == '-' then -ParseDigits(s[1..]) else ParseDigits(s)
  }

  lemma {:induction false} ParseOfDigits(n: nat)
    ensures ParseDigits(Digits(n)) == n && Digits(n) != "" && Digits(n)[0] != '-'
  {
    if n < 10 {
      assert DigitValue(Digit(n)) == n;
      assert [Digit(n)][..0] == "";
    } else {
      ParseOfDigits(n / 10);
      assert Digits(n)[..|Digits(n)| - 1] == Digits(n / 10);
      assert DigitValue(Digit(n % 10)) == n % 10;
    }
  }

  lemma ParseNegative(digits: string)
    ensures Parse("-" + digits) == -ParseDigits(digits)
  {
    assert ("-" + digits)[1..] == digits;
  }

  lemma ParsePositive(digits: string)
    requires digits != "" && digits[0] != '-'
    ensures Parse(digits) == ParseDigits(digits)
  {
  }

  lemma ParseOfDecimal(n: int)
    ensures Parse(Decimal(n)) == n
  {
    var size: nat := if n < 0 then -n else n;
    var digits := Digits(size);
    ParseOfDigits(size);
    ParseNegative(digits);
    ParsePositive(digits);
    assert Decimal(n) == if n < 0 then "-" + digits else digits;
  }

  predicate ColonFree(s: string) {
    forall i :: 0 <= i < |s| ==> s[i] != ':'
  }

  lemma {:induction false} DigitsAreColonFree(n: nat)
    ensures ColonFree(Digits(n))
  {
    if n < 10 {
    } else {
      DigitsAreColonFree(n / 10);
    }
  }

  lemma DecimalIsColonFree(n: int)
    ensures ColonFree(Decimal(n))
  {
    DigitsAreColonFree(if n < 0 then -n else n);
  }

  // ---- Splitting at a colon ----

  function FirstColon(s: string): nat {
    if s == "" || s[0] == ':' then 0 else 1 + FirstColon(s[1..])
  }

  lemma {:induction false} FirstColonAfter(a: string, x: string)
    requires ColonFree(a)
    ensures FirstColon(a + (":" + x)) == |a|
  {
    if a != "" {
      assert (a + (":" + x))[1..] == a[1..] + (":" + x);
      FirstColonAfter(a[1..], x);
    } else {
      assert a + (":" + x) == ":" + x;
    }
  }

  /** The text before the first colon, and the text after it, are determined. */
  lemma FirstColonSplits(a: string, x: string, b: string, y: string)
    requires ColonFree(a) && ColonFree(b) && a + (":" + x) == b + (":" + y)
    ensures a == b && x == y
  {
    FirstColonAfter(a, x);
    FirstColonAfter(b, y);
    var s := a + (":" + x);
    assert a == s[..|a|] == b;
    assert x == s[|a| + 1..] == y;
  }

  // ---- Keys ----

  function Key(from: int, to: int, edgeType: string): string {
    Decimal(from) + (":" + (Decimal(to) + (":" + edgeType)))
  }

  /** A key as it is stored. */
  lemma KeyIsText()
    ensures Key(12, -3, "cites") == "12:-3:cites"
  {
    assert Digits(12) == Digits(1) + [Digit(2)] == "12";
    assert Decimal(-3) == "-" + Digits(3) == "-3";
    assert Key(12, -3, "cites") == "12" + (":" + ("-3" + (":" + "cites")));
  }

  /** Distinct edges have distinct keys, for every type text, colons included. */
  lemma KeysAreInjective(from: int, to: int, edgeType: string, from': int, to': int, edgeType': string)
    requires Key(from, to, edgeType) == Key(from', to', edgeType')
    ensures from == from' && to == to' && edgeType == edgeType'
  {
    DecimalIsColonFree(from);
    DecimalIsColonFree(from');
    DecimalIsColonFree(to);
    DecimalIsColonFree(to');
    FirstColonSplits(Decimal(from), Decimal(to) + (":" + edgeType), Decimal(from'), Decimal(to') + (":" + edgeType'));
    FirstColonSplits(Decimal(to), edgeType, Decimal(to'), edgeType');
    ParseOfDecimal(from);
    ParseOfDecimal(from');
    ParseOfDecimal(to);
    ParseOfDecimal(to');
  }

  // ---- The scan for a node's edges ----

  predicate Contains(s: string, pattern: string) {
    pattern <= s || (s != "" && Contains(s[1..], pattern))
  }

  function Prefix(id: int): string {
    Decimal(id) + ":"
  }

  /** What the cascade deletes: keys that start with `id:` or have `:id:` anywhere. */
  predicate Touches(key: string, id: int) {
    Prefix(id) <= key || Contains(key, ":" + Prefix(id))
  }

  lemma HeadsAgree(a: string, b: string, rest: string)
    requires ColonFree(a) && ColonFree(b)
    ensures a + ":" <= b + (":" + rest) <==> a == b
  {
    var s := b + (":" + rest);
    if a + ":" <= s {
      assert s == a + (":" + s[|a| + 1..]);
      FirstColonSplits(a, s[|a| + 1..], b, rest);
    }
    if a == b {
      assert s == (a + ":") + rest;
    }
  }

  lemma StartsWithId(id: int, from: int, rest: string)
    ensures Prefix(id) <= Decimal(from) + (":" + rest) <==> id == from
  {
    DecimalIsColonFree(id);
    DecimalIsColonFree(from);
    HeadsAgree(Decimal(id), Decimal(from), rest);
    ParseOfDecimal(id);
    ParseOfDecimal(from);
  }

  /** Past a colon-free head, a pattern that starts with a colon is found in the rest. */
  lemma {:induction false} FoundPastHead(head: string, rest: string, pattern: string)
    requires ColonFree(head) && pattern != "" && pattern[0] == ':'
    ensures Contains(head + rest, pattern) <==> Contains(rest, pattern)
  {
    if head == "" {
      assert head + rest == rest;
    } else {
      assert (head + rest)[1..] == head[1..] + rest;
      FoundPastHead(head[1..], rest, pattern);
      assert (head + rest)[0] != pattern[0];
    }
  }

  /** At a colon, the pattern is found here or further on. */
  lemma FoundHereOrLater(rest: string, p: string)
    ensures Contains(":" + rest, ":" + p) <==> p <= rest || Contains(rest, ":" + p)
  {
    assert (":" + rest)[1..] == rest;
    assert (":" + p)[1..] == p;
    if p <= rest {
      assert rest == p + rest[|p|..];
      assert ":" + rest == (":" + p) + rest[|p|..];
    }
    if ":" + p <= ":" + rest {
      assert rest == (":" + rest)[1..][..|p|] + rest[|p|..];
      assert rest[..|p|] == (":" + p)[1..];
    }
  }

  /** Exactly which edges the scan takes for edges of `id`: the incident ones, and those
      whose type, after a colon, spells `:id:`. */
  lemma TouchesExactly(from: int, to: int, edgeType: string, id: int)
    ensures Touches(Key(from, to, edgeType), id)
       <==> from == id || to == id || Contains(":" + edgeType, ":" + Prefix(id))
  {
    var tail := Decimal(to) + (":" + edgeType);
    DecimalIsColonFree(from);
    DecimalIsColonFree(to);
    StartsWithId(id, from, tail);
    FoundPastHead(Decimal(from), ":" + tail, ":" + Prefix(id));
    FoundHereOrLater(tail, Prefix(id));
    StartsWithId(id, to, edgeType);
    FoundPastHead(Decimal(to), ":" + edgeType, ":" + Prefix(id));
  }

  lemma {:induction false} FoundColon(s: string, pattern: string)
    requires Contains(s, pattern) && pattern != "" && pattern[0] == ':'
    ensures !ColonFree(s)
  {
    if pattern <= s {
      assert s[0] == ':';
    } else {
      FoundColon(s[1..], pattern);
      var i :| 0 <= i < |s[1..]| && s[1..][i] == ':';
      assert s[i + 1] == ':';
    }
  }

  lemma PrefixHasColon(id: int, s: string)
    requires Prefix(id) <= s
    ensures !ColonFree(s)
  {
    assert s[|Decimal(id)|] == ':';
  }

  /** With a colon-free type, the scan takes the incident edges and no others. */
  lemma ColonFreeTypesAreSafe(from: int, to: int, edgeType: string, id: int)
    requires ColonFree(edgeType)
    ensures Touches(Key(from, to, edgeType), id) <==> from == id || to == id
  {
    TouchesExactly(from, to, edgeType, id);
    FoundHereOrLater(edgeType, Prefix(id));
    if Prefix(id) <= edgeType {
      PrefixHasColon(id, edgeType);
    } else if Contains(edgeType, ":" + Prefix(id)) {
      FoundColon(edgeType, ":" + Prefix(id));
    }
  }

  /** A colon in the type can make the scan take an edge of two other nodes. */
  lemma ColonInTypeMisleads()
    ensures Touches(Key(1, 2, "7:x"), 7)
  {
    TouchesExactly(1, 2, "7:x", 7);
    FoundHereOrLater("7:x", Prefix(7));
    assert Prefix(7) == "7:";
    assert "7:x" == "7:" + "x";
  }
}
