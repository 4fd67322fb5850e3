/** Python's `str` and `int` on integers, and `split` and `join`, over ASCII text. */
module DecimalText {
  import opened Options

  predicate IsDigit(c: char) {
    '0' <= c <= '9'
  }

  function Digit(d: nat): (c: char)
    requires d < 10
    ensures IsDigit(c) && DigitValue(c) == d
  {
    ['0', '1', '2', '3', '4', '5', '6', '7', '8', '9'][d]
  }

  function DigitValue(c: char): (d: nat)
    requires IsDigit(c)
    ensures d < 10
  {
    c as int - '0' as int
  }

  predicate IsSpace(c: char) {
    '\U{9}' <= c <= '\U{d}' || '\U{1c}' <= c <= ' '
  }

  predicate AllDigits(s: string) {
    forall k :: 0 <= k < |s| ==> IsDigit(s[k])
  }

  // ----- str(n) -----

  /** Digits without a leading zero. */
  function NatText(n: nat): (s: string)
    ensures s != [] && AllDigits(s)
    ensures s[0] == '0' <==> n == 0
    ensures n == 0 ==> |s| == 1
  {
    if n < 10 then [Digit(n)] else NatText(n / 10) + [Digit(n % 10)]
  }

  function IntText(n: int): (s: string)
    ensures s != []
    ensures forall k :: 0 <= k < |s| ==> IsDigit(s[k]) || s[k] == '-'
  {
    if n < 0 then ['-'] + NatText(-n) else NatText(n)
  }

  /** A minus sign exactly on the negative, then digits, and no leading zero. */
  lemma IntTextIsCanonical(n: int)
    ensures var s := IntText(n);
            && (s[0] == '-' <==> n < 0) && (n < 0 ==> AllDigits(s[1..]) && s[1..] != [] && s[1] != '0')
            && (n >= 0 ==> AllDigits(s)) && (s[0] == '0' <==> n == 0) && (n == 0 ==> |s| == 1)
  {
    if n < 0 {
      assert IntText(n)[1..] == NatText(-n);
    }
  }

  // ----- int(text) -----

  function StripLeft(s: string): string {
    if s != [] && IsSpace(s[0]) then StripLeft(s[1..]) else s
  }

  function StripRight(s: string): string {
    if s != [] && IsSpace(s[|s| - 1]) then StripRight(s[..|s| - 1]) else s
  }

  /** Digits, with single underscores allowed between two of them. */
  function ParseNat(s: string): Option<nat> {
    if s == [] || !IsDigit(s[|s| - 1]) then
      None
    else if |s| == 1 then
      Some(DigitValue(s[0]))
    else
      var before := s[..|s| - 1];
      var rest := ParseNat(if before[|before| - 1] == '_' then before[..|before| - 1] else before);
      if rest.None? then None else Some(10 * rest.value + DigitValue(s[|s| - 1]))
  }

  function Signed(sign: int, n: Option<nat>): Option<int> {
    match n
    case None => None
    case Some(v) => Some(sign * v)
  }

  function ParseSigned(s: string): Option<int> {
    if s != [] && s[0] == '-' then Signed(-1, ParseNat(s[1..]))
    else if s != [] && s[0] == '+' then Signed(1, ParseNat(s[1..]))
    else Signed(1, ParseNat(s))
  }

  /** None is the ValueError. */
  function ParseInt(text: string): Option<int> {
    ParseSigned(StripRight(StripLeft(text)))
  }

  lemma {:induction false} ParseNatText(n: nat)
    ensures ParseNat(NatText(n)) == Some(n)
  {
    if n >= 10 {
      ParseNatText(n / 10);
      var s := NatText(n);
      assert s[..|s| - 1] == NatText(n / 10);
    }
  }

  lemma NothingToStrip(s: string)
    requires s != [] && !IsSpace(s[0]) && !IsSpace(s[|s| - 1])
    ensures StripRight(StripLeft(s)) == s
  {
  }

  lemma ParseUnsigned(s: string)
    requires s != [] && AllDigits(s)
    ensures ParseInt(s) == Signed(1, ParseNat(s))
  {
    NothingToStrip(s);
    assert IsDigit(s[0]);
  }

  lemma ParseNegative(s: string)
    requires s != [] && AllDigits(s)
    ensures ParseInt(['-'] + s) == Signed(-1, ParseNat(s))
  {
    var t := ['-'] + s;
    assert t[|t| - 1] == s[|s| - 1];
    NothingToStrip(t);
    assert t[1..] == s;
  }

  /** Printing an integer and parsing the text gives it back. */
  lemma ParseIntText(n: int)
    ensures ParseInt(IntText(n)) == Some(n)
  {
    var digits := NatText(if n < 0 then -n else n);
    ParseNatText(if n < 0 then -n else n);
    if n < 0 {
      ParseNegative(digits);
    } else {
      ParseUnsigned(digits);
    }
  }

  // ----- Exactly which texts int() takes, and for what -----

  predicate AllSpace(s: string) {
    forall k :: 0 <= k < |s| ==> IsSpace(s[k])
  }

  /** Digits at both ends, and between them digits with single underscores. */
  predicate IsNumeral(s: string) {
    && s != [] && IsDigit(s[0]) && IsDigit(s[|s| - 1])
    && (forall k :: 0 <= k < |s| ==> IsDigit(s[k]) || s[k] == '_')
    && forall k :: 0 <= k < |s| - 1 && s[k] == '_' ==> IsDigit(s[k + 1])
  }

  /** The number its digits make, underscores left out. */
  function NumeralValue(s: string): nat
    requires forall k :: 0 <= k < |s| ==> IsDigit(s[k]) || s[k] == '_'
  {
    if s == [] then 0
    else if s[|s| - 1] == '_' then NumeralValue(s[..|s| - 1])
    else 10 * NumeralValue(s[..|s| - 1]) + DigitValue(s[|s| - 1])
  }

  /** Another digit at the end of a text that ends in one. */
  lemma OneDigitMore(s: string, d: char)
    requires s != [] && s[|s| - 1] != '_' && IsDigit(d)
    ensures IsNumeral(s + [d]) <==> IsNumeral(s)
    ensures IsNumeral(s) ==> NumeralValue(s + [d]) == 10 * NumeralValue(s) + DigitValue(d)
  {
    var t := s + [d];
    assert forall k :: 0 <= k < |s| ==> t[k] == s[k];
    assert t[..|t| - 1] == s;
    if IsNumeral(t) {
      assert t[|s| - 1] == s[|s| - 1];
    }
  }

  /** Or after an underscore. */
  lemma UnderscoreAndDigit(s: string, d: char)
    requires IsDigit(d)
    ensures IsNumeral(s + ['_'] + [d]) <==> IsNumeral(s)
    ensures IsNumeral(s) ==> NumeralValue(s + ['_'] + [d]) == 10 * NumeralValue(s) + DigitValue(d)
  {
    var u := s + ['_'];
    var t := u + [d];
    assert forall k :: 0 <= k < |s| ==> t[k] == s[k];
    assert t[|s|] == '_' && t[..|t| - 1] == u && u[..|u| - 1] == s;
    if IsNumeral(t) {
      assert t[0] != '_';
      assert t[|s| - 1] == s[|s| - 1];
    }
  }

  lemma {:induction false} ParseNatIff(s: string)
    ensures ParseNat(s).Some? <==> IsNumeral(s)
    ensures IsNumeral(s) ==> ParseNat(s) == Some(NumeralValue(s))
  {
    if s != [] && IsDigit(s[|s| - 1]) && |s| > 1 {
      var before, d := s[..|s| - 1], s[|s| - 1];
      assert s == before + [d];
      if before[|before| - 1] == '_' {
        var rest := before[..|before| - 1];
        assert before == rest + ['_'];
        ParseNatIff(rest);
        UnderscoreAndDigit(rest, d);
      } else {
        ParseNatIff(before);
        OneDigitMore(before, d);
      }
    }
  }

  /** text is the number n spelled out: space, a sign or none, a numeral, space. */
  predicate Spells(text: string, n: int, lead: string, sign: string, numeral: string, trail: string) {
    && text == lead + (sign + numeral) + trail && AllSpace(lead) && AllSpace(trail)
    && (sign == "" || sign == "+" || sign == "-") && IsNumeral(numeral)
    && n == (if sign == "-" then -1 else 1) * NumeralValue(numeral)
  }

  lemma {:induction false} StripLeftOf(lead: string, s: string)
    requires AllSpace(lead) && (s == [] || !IsSpace(s[0]))
    ensures StripLeft(lead + s) == s
  {
    if lead != [] {
      assert (lead + s)[1..] == lead[1..] + s;
      StripLeftOf(lead[1..], s);
    } else {
      assert lead + s == s;
    }
  }

  lemma {:induction false} StripRightOf(s: string, trail: string)
    requires AllSpace(trail) && (s == [] || !IsSpace(s[|s| - 1]))
    ensures StripRight(s + trail) == s
  {
    if trail != [] {
      assert (s + trail)[..|s + trail| - 1] == s + trail[..|trail| - 1];
      StripRightOf(s, trail[..|trail| - 1]);
    } else {
      assert s + trail == s;
    }
  }

  lemma {:induction false} LeftStripped(s: string) returns (lead: string)
    ensures AllSpace(lead) && s == lead + StripLeft(s)
  {
    lead := "";
    if s != [] && IsSpace(s[0]) {
      var rest := LeftStripped(s[1..]);
      lead := [s[0]] + rest;
    }
  }

  lemma {:induction false} RightStripped(s: string) returns (trail: string)
    ensures AllSpace(trail) && s == StripRight(s) + trail
  {
    trail := "";
    if s != [] && IsSpace(s[|s| - 1]) {
      var rest := RightStripped(s[..|s| - 1]);
      trail := rest + [s[|s| - 1]];
    }
  }

  ghost predicate SpelledOut(text: string, n: int) {
    exists lead, sign, numeral, trail :: Spells(text, n, lead, sign, numeral, trail)
  }

  lemma ParsedIsSpelled(text: string, n: int)
    requires ParseInt(text) == Some(n)
    ensures SpelledOut(text, n)
  {
    var lead := LeftStripped(text);
    var trail := RightStripped(StripLeft(text));
    var s := StripRight(StripLeft(text));
    var sign, numeral := SignedNumeral(s, n);
    assert lead + s + trail == text;
    assert Spells(text, n, lead, sign, numeral, trail);
  }

  lemma SignedNumeral(s: string, n: int) returns (sign: string, numeral: string)
    requires ParseSigned(s) == Some(n)
    ensures s == sign + numeral && (sign == "" || sign == "+" || sign == "-") && IsNumeral(numeral)
    ensures n == (if sign == "-" then -1 else 1) * NumeralValue(numeral)
  {
    if s != [] && s[0] == '-' {
      sign, numeral := "-", s[1..];
    } else if s != [] && s[0] == '+' {
      sign, numeral := "+", s[1..];
    } else {
      sign, numeral := "", s;
    }
    ParseNatIff(numeral);
  }

  lemma SpelledIsParsed(text: string, n: int, lead: string, sign: string, numeral: string, trail: string)
    requires Spells(text, n, lead, sign, numeral, trail)
    ensures ParseInt(text) == Some(n)
  {
    var s := sign + numeral;
    assert s[|s| - 1] == numeral[|numeral| - 1];
    assert text == lead + (s + trail);
    StripLeftOf(lead, s + trail);
    StripRightOf(s, trail);
    assert s[|sign|..] == numeral;
    ParseNatIff(numeral);
  }

  /** int(text) is n if and only if text spells n out. */
  lemma ParseIntIff(text: string, n: int)
    ensures ParseInt(text) == Some(n) <==> SpelledOut(text, n)
  {
    if ParseInt(text) == Some(n) {
      ParsedIsSpelled(text, n);
    }
    if SpelledOut(text, n) {
      var lead, sign, numeral, trail :| Spells(text, n, lead, sign, numeral, trail);
      SpelledIsParsed(text, n, lead, sign, numeral, trail);
    }
  }

  lemma NatTextInjective(m: nat, n: nat)
    requires NatText(m) == NatText(n)
    ensures m == n
  {
    ParseNatText(m);
    ParseNatText(n);
  }

  // ----- split and join -----

  /** Position of the first c, or the length when there is none. */
  function IndexOf(s: string, c: char): (i: nat)
    ensures i <= |s| && c !in s[..i] && (i < |s| ==> s[i] == c)
  {
    if s == [] || s[0] == c then
      0
    else
      var i := 1 + IndexOf(s[1..], c);
      assert s[..i] == [s[0]] + s[1..][..i - 1];
      i
  }

  /** s.split(c, splits); every occurrence splits when splits is None. */
  function Split(s: string, c: char, splits: Option<nat>): (parts: seq<string>)
    ensures parts != []
    decreases |s|
  {
    var i := IndexOf(s, c);
    if i == |s| || splits == Some(0) then
      [s]
    else
      [s[..i]] + Split(s[i + 1..], c, if splits.None? then None else Some(splits.value - 1))
  }

  function Join(parts: seq<string>, c: char): string {
    if parts == [] then []
    else if |parts| == 1 then parts[0]
    else parts[0] + [c] + Join(parts[1..], c)
  }

  lemma {:induction false} IndexAfter(head: string, c: char, tail: string)
    requires c !in head
    ensures IndexOf(head + [c] + tail, c) == |head|
  {
    if head != [] {
      assert (head + [c] + tail)[1..] == head[1..] + [c] + tail;
      IndexAfter(head[1..], c, tail);
    }
  }

  lemma IndexAbsent(s: string, c: char)
    requires c !in s
    ensures IndexOf(s, c) == |s|
  {
  }

  /** One part without the separator comes off the front of a split. */
  lemma SplitFirst(head: string, c: char, tail: string, splits: Option<nat>)
    requires c !in head && splits != Some(0)
    ensures Split(head + [c] + tail, c, splits)
         == [head] + Split(tail, c, if splits.None? then None else Some(splits.value - 1))
  {
    IndexAfter(head, c, tail);
    var s := head + [c] + tail;
    assert s[..|head|] == head && s[|head| + 1..] == tail;
  }

  lemma SplitWhole(s: string, c: char, splits: Option<nat>)
    requires c !in s || splits == Some(0)
    ensures Split(s, c, splits) == [s]
  {
    if c !in s {
      IndexAbsent(s, c);
    }
  }

  /**
   * Splitting what was joined gives the parts back when none contains the separator; with as many
   * splits as separators the last part may contain it.
   */
  lemma {:induction false} SplitJoin(parts: seq<string>, c: char, splits: Option<nat>)
    requires parts != [] && forall k :: 0 <= k < |parts| - 1 ==> c !in parts[k]
    requires if splits.None? then c !in parts[|parts| - 1] else splits.value == |parts| - 1
    ensures Split(Join(parts, c), c, splits) == parts
  {
    if |parts| == 1 {
      SplitWhole(parts[0], c, splits);
    } else {
      SplitJoin(parts[1..], c, if splits.None? then None else Some(splits.value - 1));
      SplitFirst(parts[0], c, Join(parts[1..], c), splits);
      assert parts == [parts[0]] + parts[1..];
    }
  }

  /** No part has the separator but a last one that was out of splits. */
  ghost predicate AreParts(parts: seq<string>, c: char, splits: Option<nat>) {
    && parts != [] && (splits.Some? ==> |parts| <= splits.value + 1)
    && (forall k :: 0 <= k < |parts| - 1 ==> c !in parts[k])
    && (c in parts[|parts| - 1] ==> splits.Some? && |parts| == splits.value + 1)
  }

  /** And joining what was split gives the text back. */
  lemma {:induction false} JoinSplit(s: string, c: char, splits: Option<nat>)
    ensures Join(Split(s, c, splits), c) == s && AreParts(Split(s, c, splits), c, splits)
    decreases |s|
  {
    var i := IndexOf(s, c);
    if i == |s| || splits == Some(0) {
      assert Split(s, c, splits) == [s];
      assert i == |s| ==> s[..i] == s;
    } else {
      var left := if splits.None? then None else Some(splits.value - 1);
      var rest := Split(s[i + 1..], c, left);
      JoinSplit(s[i + 1..], c, left);
      OnePartMore(s[..i], rest, c, left);
      assert Split(s, c, splits) == [s[..i]] + rest;
      CutAt(s, c, i);
    }
  }

  lemma CutAt(s: string, c: char, i: nat)
    requires i < |s| && s[i] == c
    ensures s == s[..i] + [c] + s[i + 1..]
  {
  }

  lemma OnePartMore(head: string, rest: seq<string>, c: char, left: Option<nat>)
    requires AreParts(rest, c, left) && c !in head
    ensures Join([head] + rest, c) == head + [c] + Join(rest, c)
    ensures AreParts([head] + rest, c, if left.None? then None else Some(left.value + 1))
  {
    assert ([head] + rest)[1..] == rest;
  }
}
