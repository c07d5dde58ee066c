/**
  Sizes as text in camera/parameters/CameraParameters.cpp: "%dx%d", parse_pair and parseSizesList on
  top of strtol. A C string is a sequence of characters none of which is NUL; a pointer into it is a
  suffix, and reading at its end gives NUL.
  */
module CameraSizes {
  import opened Basics

  datatype Size = Size(width: Int32, height: Int32)

  /** Bounds of a 64-bit long. */
  const LONG_MAX := 0x7FFF_FFFF_FFFF_FFFF
  const LONG_MIN := -LONG_MAX - 1

  // ---------------------------------------------------------------- strtol, base 10

  predicate IsSpace(c: char) {
    c == ' ' || '\t' <= c <= '\r'
  }

  predicate IsDigit(c: char) {
    '0' <= c <= '9'
  }

  /** The decimal number at the front of `s`, `acc` read so far, and how many digits it has. */
  function ReadDigits(s: string, acc: nat): (r: (nat, nat))
    ensures r.1 <= |s|
    decreases |s|
  {
    if s == [] || !IsDigit(s[0]) then (acc, 0)
    else
      var (value, n) := ReadDigits(s[1..], 10 * acc + (s[0] as int - '0' as int));
      (value, n + 1)
  }

  function ClampToLong(x: int): int {
    if x > LONG_MAX then LONG_MAX else if x < LONG_MIN then LONG_MIN else x
  }

  function Number(s: string, negative: bool): (r: (int, nat))
    ensures r.1 <= |s|
  {
    var (value, n) := ReadDigits(s, 0);
    if n == 0 then (0, 0) else (ClampToLong(if negative then 0 - value else value), n)
  }

  /** `r` was read one character further on; nothing is consumed if no digits follow. */
  function Behind(r: (int, nat)): (int, nat) {
    if r.1 == 0 then (0, 0) else (r.0, r.1 + 1)
  }

  /** The number strtol reads at the front of `s`, and how many characters it consumes: white space,
      a sign and digits, or nothing at all if there are no digits (section 7.22.1.4 of ISO/IEC 9899:2011). */
  function Strtol(s: string): (r: (int, nat))
    ensures r.1 <= |s|
  {
    if s == [] then (0, 0)
    else if IsSpace(s[0]) then Behind(Strtol(s[1..]))
    else if s[0] == '-' || s[0] == '+' then Behind(Number(s[1..], s[0] == '-'))
    else Number(s, false)
  }

  /** A character that is no space, sign or digit. */
  predicate Stops(rest: string) {
    rest != [] ==> !IsSpace(rest[0]) && !IsDigit(rest[0]) && rest[0] != '-' && rest[0] != '+'
  }

  lemma {:induction false} DigitsStop(s: string, rest: string, acc: nat)
    requires Stops(rest)
    ensures ReadDigits(s + rest, acc) == ReadDigits(s, acc)
    decreases |s|
  {
    if s == [] {
      assert s + rest == rest;
    } else {
      assert (s + rest)[1..] == s[1..] + rest;
      if IsDigit(s[0]) {
        DigitsStop(s[1..], rest, 10 * acc + (s[0] as int - '0' as int));
      }
    }
  }

  /** strtol never looks past one. */
  lemma {:induction false} StrtolStops(s: string, rest: string)
    requires Stops(rest)
    ensures Strtol(s + rest) == Strtol(s)
  {
    if s == [] {
      assert s + rest == rest;
    } else {
      assert (s + rest)[1..] == s[1..] + rest;
      if IsSpace(s[0]) {
        StrtolStops(s[1..], rest);
      }
      DigitsStop(s[1..], rest, 0);
      DigitsStop(s, rest, 0);
    }
  }

  // ---- what strtol should read, said apart from it

  /** The number that decimal digits denote, the last one counting one. */
  function DecimalValue(digits: string): int {
    if digits == [] then 0
    else 10 * DecimalValue(digits[..|digits| - 1]) + (digits[|digits| - 1] as int - '0' as int)
  }

  predicate AllDigits(s: string) {
    forall i :: 0 <= i < |s| ==> '0' <= s[i] <= '9'
  }

  lemma {:induction false} ReadsAll(digits: string, rest: string)
    requires AllDigits(digits)
    ensures DecimalValue(digits) >= 0
    ensures var (value, n) := ReadDigits(rest, DecimalValue(digits));
            ReadDigits(digits + rest, 0) == (value, |digits| + n)
    decreases |digits|
  {
    if digits == [] {
      assert digits + rest == rest;
    } else {
      var front, last := digits[..|digits| - 1], [digits[|digits| - 1]];
      ReadsAll(front, last + rest);
      assert (last + rest)[1..] == rest;
      assert digits + rest == front + (last + rest);
    }
  }

  lemma DigitAppended(acc: string, digit: char)
    ensures DecimalValue(acc + [digit]) == 10 * DecimalValue(acc) + (digit as int - '0' as int)
  {
    assert (acc + [digit])[..|acc|] == acc;
  }

  lemma {:induction false} StrtolSkips(spaces: string, text: string)
    requires (forall i :: 0 <= i < |spaces| ==> spaces[i] == ' ' || '\t' <= spaces[i] <= '\r')
    ensures Strtol(spaces + text) == if Strtol(text).1 == 0 then (0, 0)
                                     else (Strtol(text).0, |spaces| + Strtol(text).1)
  {
    if spaces == [] {
      assert spaces + text == text;
      NothingIsZero(text);
    } else {
      assert (spaces + text)[1..] == spaces[1..] + text;
      StrtolSkips(spaces[1..], text);
    }
  }

  lemma {:induction false} NothingIsZero(text: string)
    ensures Strtol(text).1 == 0 ==> Strtol(text) == (0, 0)
  {
    if text != [] && IsSpace(text[0]) {
      NothingIsZero(text[1..]);
    }
  }

  predicate IsSign(sign: string) {
    sign == "" || sign == "-" || sign == "+"
  }

  lemma NumberOf(s: string, negative: bool, value: nat, n: nat)
    requires ReadDigits(s, 0) == (value, n) && n > 0
    ensures Number(s, negative) == (ClampToLong(if negative then 0 - value else value), n)
  {
  }

  lemma StrtolOf(sign: string, text: string, number: string, value: int, n: nat)
    requires IsSign(sign) && text == sign + number && number != [] && IsDigit(number[0])
    requires Number(number, sign == "-") == (value, n) && n > 0
    ensures Strtol(text) == (value, |sign| + n)
  {
    if sign == "" {
      assert text == number;
    } else {
      assert text[1..] == number && text[0] == sign[0];
    }
  }

  lemma SignedNumber(sign: string, number: string, value: nat, n: nat)
    requires IsSign(sign) && number != [] && IsDigit(number[0]) && ReadDigits(number, 0) == (value, n) && n > 0
    ensures Strtol(sign + number) == (ClampToLong(if sign == "-" then 0 - value else value), |sign| + n)
  {
    NumberOf(number, sign == "-", value, n);
    StrtolOf(sign, sign + number, number, ClampToLong(if sign == "-" then 0 - value else value), n);
  }

  /** Any text with a number at its front: white space, perhaps a sign, and as many digits as there are.
      What they denote is read, or the nearest 64-bit number. */
  lemma StrtolReads(spaces: string, sign: string, digits: string, rest: string)
    requires (forall i :: 0 <= i < |spaces| ==> spaces[i] == ' ' || '\t' <= spaces[i] <= '\r')
    requires sign in {"", "-", "+"} && digits != [] && AllDigits(digits)
    requires rest == [] || !('0' <= rest[0] <= '9')
    ensures var x := if sign == "-" then 0 - DecimalValue(digits) else DecimalValue(digits);
            var (value, n) := Strtol(spaces + (sign + (digits + rest)));
            n == |spaces| + |sign| + |digits| && IsNearestLong(value, x)
  {
    var number := digits + rest;
    assert number[0] == digits[0];
    ReadsAll(digits, rest);
    SignedNumber(sign, number, DecimalValue(digits), |digits|);
    StrtolSkips(spaces, sign + number);
  }

  predicate IsNearestLong(value: int, x: int) {
    && (x >= 0x8000_0000_0000_0000 ==> value == 0x7FFF_FFFF_FFFF_FFFF)
    && (x < -0x8000_0000_0000_0000 ==> value == -0x8000_0000_0000_0000)
    && (-0x8000_0000_0000_0000 <= x < 0x8000_0000_0000_0000 ==> value == x)
  }

  /** And any other text: no digit follows the white space and the sign. Nothing is read. */
  lemma StrtolReadsNothing(spaces: string, sign: string, rest: string)
    requires (forall i :: 0 <= i < |spaces| ==> spaces[i] == ' ' || '\t' <= spaces[i] <= '\r')
    requires sign in {"", "-", "+"} && (rest == [] || !('0' <= rest[0] <= '9'))
    requires sign == "" && rest != [] ==> rest[0] !in {' ', '-', '+'} && !('\t' <= rest[0] <= '\r')
    ensures Strtol(spaces + (sign + rest)) == (0, 0)
  {
    if sign == "" {
      assert sign + rest == rest;
    } else {
      assert (sign + rest)[1..] == rest;
    }
    StrtolSkips(spaces, sign + rest);
  }

  // ---------------------------------------------------------------- printing with %d

  function Digit(n: nat): (c: char)
    requires n < 10
    ensures IsDigit(c) && c as int - '0' as int == n
  {
    ('0' as int + n) as char
  }

  function Digits(n: nat): (s: string)
    ensures s != [] && IsDigit(s[0])
  {
    if n < 10 then [Digit(n)] else Digits(n / 10) + [Digit(n % 10)]
  }

  function Decimal(x: int): string {
    if x < 0 then "-" + Digits(-x) else Digits(x)
  }

  /** What %d prints: digits without a zero in front, unless it is all there is, that denote the number,
      behind a minus sign if it is negative. */
  lemma DecimalIsPrinted(x: int)
    ensures var digits := if x < 0 then Decimal(x)[1..] else Decimal(x);
            && (x < 0 ==> Decimal(x)[0] == '-')
            && AllDigits(digits)
            && digits != [] && (digits[0] == '0' ==> |digits| == 1)
            && DecimalValue(digits) == if x < 0 then -x else x
  {
    DigitsArePrinted(if x < 0 then -x else x);
  }

  lemma {:induction false} DigitsArePrinted(n: nat)
    ensures AllDigits(Digits(n)) && DecimalValue(Digits(n)) == n
    ensures if n == 0 then |Digits(n)| == 1 else Digits(n)[0] != '0'
  {
    if n < 10 {
      OneDigit(Digit(n));
    } else {
      DigitsArePrinted(n / 10);
      OneMoreDigit(Digits(n / 10), Digit(n % 10));
    }
  }

  lemma OneDigit(c: char)
    requires IsDigit(c)
    ensures AllDigits([c]) && DecimalValue([c]) == c as int - '0' as int
  {
    assert [c][..0] == [];
  }

  lemma OneMoreDigit(s: string, c: char)
    requires s != [] && AllDigits(s) && IsDigit(c)
    ensures AllDigits(s + [c]) && (s + [c])[0] == s[0]
    ensures DecimalValue(s + [c]) == 10 * DecimalValue(s) + (c as int - '0' as int)
  {
    DigitAppended(s, c);
  }

  lemma NumberReadsDigits(n: nat, rest: string, negative: bool)
    requires Stops(rest) && n <= 0x8000_0000
    ensures Number(Digits(n) + rest, negative) == (if negative then 0 - n else n, |Digits(n)|)
  {
    DigitsArePrinted(n);
    ReadsAll(Digits(n), rest);
  }

  lemma StrtolReadsDecimal(x: Int32, rest: string)
    requires Stops(rest)
    ensures Strtol(Decimal(x) + rest) == (x, |Decimal(x)|)
  {
    var magnitude: nat := if x < 0 then 0 - x else x;
    var sign, number := if x < 0 then "-" else "", Digits(magnitude) + rest;
    NumberReadsDigits(magnitude, rest, x < 0);
    assert number[0] == Digits(magnitude)[0];
    assert Decimal(x) == sign + Digits(magnitude);
    assert Decimal(x) + rest == sign + number;
    StrtolOf(sign, Decimal(x) + rest, number, x, |Digits(magnitude)|);
  }

  // ---------------------------------------------------------------- pairs

  /** parse_pair: the two numbers and the characters consumed, None where it returns -1. */
  function ParsePair(s: string, delim: char): (r: Option<(Size, nat)>)
    ensures r.Some? ==> 0 < r.value.1 <= |s|
  {
    var (w, n) := Strtol(s);
    if n >= |s| || s[n] != delim then None
    else
      var (h, m) := Strtol(s[n + 1..]);
      Some((Size(ToInt32(w), ToInt32(h)), n + 1 + m))
  }

  function SizeText(size: Size): string {
    Decimal(size.width) + "x" + Decimal(size.height)
  }

  /** What is written is read back, whatever text follows that does not extend the last number. */
  lemma ParsePairReadsSize(size: Size, rest: string)
    requires Stops(rest)
    ensures ParsePair(SizeText(size) + rest, 'x') == Some((size, |SizeText(size)|))
  {
    var first, second := Decimal(size.width), Decimal(size.height);
    var s := SizeText(size) + rest;
    assert s == first + ("x" + (second + rest)) && s[|first| + 1..] == second + rest;
    StrtolReadsDecimal(size.width, "x" + (second + rest));
    StrtolReadsDecimal(size.height, rest);
    PairOf(s, size, |first|, |second|);
  }

  lemma PairOf(s: string, size: Size, n: nat, m: nat)
    requires Strtol(s) == (size.width, n) && n < |s| && s[n] == 'x' && Strtol(s[n + 1..]) == (size.height, m)
    ensures ParsePair(s, 'x') == Some((size, n + 1 + m))
  {
  }

  /** parse_pair answers exactly if the delimiter stands right behind the first number, with what strtol
      reads on both sides of it. */
  lemma ParsePairIff(s: string, delim: char)
    ensures var (w, n) := Strtol(s);
            && (ParsePair(s, delim).Some? <==> n < |s| && s[n] == delim)
            && (ParsePair(s, delim).Some? ==>
                  var (size, end) := ParsePair(s, delim).value;
                  var (h, m) := Strtol(s[n + 1..]);
                  end == n + 1 + m && size == Size(ToInt32(w), ToInt32(h)))
  {
  }

  /** A size is written as its two numbers around an 'x'. */
  lemma SizeTextIsWritten(size: Size)
    ensures var text, n := SizeText(size), |Decimal(size.width)|;
            n < |text| && text[..n] == Decimal(size.width) && text[n] == 'x' && text[n + 1..] == Decimal(size.height)
  {
  }

  /** parse_pair reads one list item only: what stands behind a comma makes no difference, unless the
      comma is what it looks for. */
  lemma ParsePairStops(item: string, rest: string)
    requires rest != [] && rest[0] == ','
    ensures ParsePair(item + rest, 'x') == ParsePair(item, 'x')
  {
    StrtolStops(item, rest);
    var n := Strtol(item).1;
    if n < |item| {
      assert (item + rest)[n + 1..] == item[n + 1..] + rest;
      StrtolStops(item[n + 1..], rest);
    }
  }

  // ---------------------------------------------------------------- lists

  /** parseSizesList, as a function of its text. */
  function SizesOf(s: string): seq<Size> {
    match ParsePair(s, 'x')
    case None => []
    case Some((size, n)) =>
      if n == |s| then [size]
      else if s[n] != ',' then []
      else [size] + SizesOf(s[n + 1..])
  }

  method ParseSizesList(s: string) returns (sizes: seq<Size>)
    ensures sizes == SizesOf(s)
  {
    var sizeStartPtr := s;
    sizes := [];
    while true
      invariant sizes + SizesOf(sizeStartPtr) == SizesOf(s)
      decreases |sizeStartPtr|
    {
      var pair := ParsePair(sizeStartPtr, 'x');
      if pair.None? { return; }
      var (size, n) := pair.value;
      if n < |sizeStartPtr| && sizeStartPtr[n] != ',' { return; }
      sizes := sizes + [size];
      if n == |sizeStartPtr| { return; }
      sizeStartPtr := sizeStartPtr[n + 1..];
    }
  }

  // ---- what the list should be, said apart from the parser

  /** The items between commas, at least one. */
  function Items(s: string): (items: seq<string>)
    ensures items != []
  {
    var n := CommaAt(s);
    if n == |s| then [s] else [s[..n]] + Items(s[n + 1..])
  }

  function CommaAt(s: string): (n: nat)
    ensures n <= |s|
    ensures n < |s| ==> s[n] == ','
    ensures ',' !in s[..n]
  {
    if s == [] || s[0] == ',' then 0
    else
      var n := CommaAt(s[1..]);
      assert s[..1 + n] == [s[0]] + s[1..][..n];
      1 + n
  }

  /** An item is a size if all of it is one pair. */
  predicate IsSize(item: string) {
    var pair := ParsePair(item, 'x');
    pair.Some? && pair.value.1 == |item|
  }

  /** The sizes before the first item that is none. */
  function Sizes(items: seq<string>): seq<Size> {
    if items == [] || !IsSize(items[0]) then []
    else [ParsePair(items[0], 'x').value.0] + Sizes(items[1..])
  }

  lemma SizesOfLast(s: string)
    requires CommaAt(s) == |s|
    ensures SizesOf(s) == if IsSize(s) then [ParsePair(s, 'x').value.0] else []
  {
    var pair := ParsePair(s, 'x');
    if pair.Some? && pair.value.1 < |s| {
      assert s[pair.value.1] in s[..|s|];
    }
  }

  lemma SizesOfFirst(s: string, n: nat)
    requires n == CommaAt(s) < |s|
    ensures SizesOf(s) == if IsSize(s[..n]) then [ParsePair(s[..n], 'x').value.0] + SizesOf(s[n + 1..]) else []
  {
    PairOfItem(s, n);
    NoCommaBefore(s, n);
    SizesOfWhen(s, n, ParsePair(s[..n], 'x'));
  }

  lemma PairOfItem(s: string, n: nat)
    requires n < |s| && s[n] == ','
    ensures ParsePair(s, 'x') == ParsePair(s[..n], 'x')
  {
    ParsePairStops(s[..n], s[n..]);
    assert s == s[..n] + s[n..];
  }

  lemma NoCommaBefore(s: string, n: nat)
    requires n <= |s| && ',' !in s[..n]
    ensures forall m :: 0 <= m < n ==> s[m] != ','
  {
    forall m | 0 <= m < n ensures s[m] != ',' {
      assert s[m] in s[..n];
    }
  }

  lemma SizesOfWhen(s: string, n: nat, pair: Option<(Size, nat)>)
    requires n < |s| && s[n] == ',' && ParsePair(s, 'x') == pair && (pair.Some? ==> pair.value.1 <= n)
    requires forall m :: 0 <= m < n ==> s[m] != ','
    ensures SizesOf(s) == if pair.Some? && pair.value.1 == n then [pair.value.0] + SizesOf(s[n + 1..]) else []
  {
  }

  /** On any text the parser delivers the sizes of the comma-separated items before the first
      malformed one, and no more. */
  lemma {:induction false} ParsesUpToMalformed(s: string)
    ensures SizesOf(s) == Sizes(Items(s))
    decreases |s|
  {
    var n := CommaAt(s);
    if n == |s| {
      SizesOfLast(s);
      assert Sizes([s][1..]) == [];
    } else {
      SizesOfFirst(s, n);
      ParsesUpToMalformed(s[n + 1..]);
      SizesNext(s[..n], Items(s[n + 1..]));
    }
  }

  lemma SizesNext(item: string, items: seq<string>)
    ensures Sizes([item] + items) == if IsSize(item) then [ParsePair(item, 'x').value.0] + Sizes(items) else []
  {
    assert ([item] + items)[1..] == items;
  }

  function Joined(items: seq<string>): string {
    if items == [] then "" else if |items| == 1 then items[0] else items[0] + "," + Joined(items[1..])
  }

  /** The items are the text's, cut at every comma. */
  lemma {:induction false} ItemsJoin(s: string)
    ensures Joined(Items(s)) == s
    ensures forall item :: item in Items(s) ==> ',' !in item
    decreases |s|
  {
    var n := CommaAt(s);
    if n == |s| {
      assert s[..n] == s;
    } else {
      ItemsJoin(s[n + 1..]);
      JoinedNext(s[..n], Items(s[n + 1..]));
      assert s == s[..n] + "," + s[n + 1..];
    }
  }

  lemma JoinedNext(item: string, items: seq<string>)
    requires items != []
    ensures Joined([item] + items) == item + "," + Joined(items)
  {
    assert ([item] + items)[1..] == items;
  }

  /** Item by item: all of each item before some point is the pair delivered for it, and the item at
      that point, if the list goes on, is no pair or has something behind it. */
  lemma SizesItemByItem(s: string)
    ensures var items, sizes := Items(s), SizesOf(s);
            && |sizes| <= |items|
            && (forall i :: 0 <= i < |sizes| ==> ParsePair(items[i], 'x') == Some((sizes[i], |items[i]|)))
            && (|sizes| < |items| ==>
                  var pair := ParsePair(items[|sizes|], 'x');
                  pair.Some? ==> pair.value.1 < |items[|sizes|]|)
  {
    ParsesUpToMalformed(s);
    SizesArePairs(Items(s));
  }

  lemma {:induction false} SizesArePairs(items: seq<string>)
    ensures var sizes := Sizes(items);
            && |sizes| <= |items|
            && (forall i :: 0 <= i < |sizes| ==> ParsePair(items[i], 'x') == Some((sizes[i], |items[i]|)))
            && (|sizes| < |items| ==>
                  var pair := ParsePair(items[|sizes|], 'x');
                  pair.Some? ==> pair.value.1 < |items[|sizes|]|)
  {
    if items != [] && IsSize(items[0]) {
      SizesArePairs(items[1..]);
    }
  }

  /** The text of a list of sizes. */
  function SizesText(sizes: seq<Size>): string {
    if sizes == [] then "" else if |sizes| == 1 then SizeText(sizes[0])
    else SizeText(sizes[0]) + "," + SizesText(sizes[1..])
  }

  lemma SizesOfNext(size: Size, rest: string)
    ensures SizesOf(SizeText(size)) == [size]
    ensures SizesOf(SizeText(size) + "," + rest) == [size] + SizesOf(rest)
  {
    ParsePairReadsSize(size, "");
    assert SizeText(size) + "" == SizeText(size);
    var s := SizeText(size) + "," + rest;
    assert s == SizeText(size) + ("," + rest) && s[|SizeText(size)| + 1..] == rest;
    ParsePairReadsSize(size, "," + rest);
  }

  /** Parsing a non-empty list's text gives back the list. */
  lemma {:induction false} SizesRoundTrip(sizes: seq<Size>)
    requires sizes != []
    ensures SizesOf(SizesText(sizes)) == sizes
  {
    if |sizes| == 1 {
      SizesOfNext(sizes[0], "");
    } else {
      SizesOfNext(sizes[0], SizesText(sizes[1..]));
      SizesRoundTrip(sizes[1..]);
    }
  }

  /** A size's text holds neither of the characters CameraParameters::set refuses. */
  lemma SizeTextIsPlain(size: Size)
    ensures '=' !in SizeText(size) && ';' !in SizeText(size) && SizeText(size) != ""
  {
    DecimalIsPlain(size.width);
    DecimalIsPlain(size.height);
  }

  lemma {:induction false} SizesTextIsPlain(sizes: seq<Size>)
    ensures '=' !in SizesText(sizes) && ';' !in SizesText(sizes)
  {
    if sizes != [] {
      SizeTextIsPlain(sizes[0]);
      SizesTextIsPlain(sizes[1..]);
    }
  }

  lemma DecimalIsPlain(x: int)
    ensures forall c :: c in Decimal(x) ==> IsDigit(c) || c == '-'
  {
    DigitsAreDigits(if x < 0 then -x else x);
  }

  lemma {:induction false} DigitsAreDigits(n: nat)
    ensures forall c :: c in Digits(n) ==> IsDigit(c)
  {
    if n >= 10 {
      DigitsAreDigits(n / 10);
    }
  }
}
