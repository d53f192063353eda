/** The text form of hierarchical wallet paths, in the notation of BIP-32 with the levels of
    BIP-44: components from 2^31 on are hardened and written with a quote. */
module DerivationPath {
  import opened Types

  const MAX_UINT32 := 0xFFFF_FFFF
  const HARDENED := 0x8000_0000

  const DEFAULT_ROOT: seq<nat> := [HARDENED + 44, HARDENED + 60, HARDENED, 0]

  // ----- The library underneath -----

  /** White space as `strings.TrimSpace` knows it. */
  predicate IsSpace(c: char) {
    c in {' ', '\t', '\n', '\U{B}', '\U{C}', '\r', '\U{85}', '\U{A0}', '\U{1680}', '\U{2028}', '\U{2029}',
          '\U{202F}', '\U{205F}', '\U{3000}'}
    || '\U{2000}' <= c <= '\U{200A}'
  }

  function TrimLeft(s: string): string {
    if s != [] && IsSpace(s[0]) then TrimLeft(s[1..]) else s
  }

  function TrimRight(s: string): string {
    if s != [] && IsSpace(s[|s| - 1]) then TrimRight(s[..|s| - 1]) else s
  }

  function Trim(s: string): string {
    TrimRight(TrimLeft(s))
  }

  /** `strings.Split` at slashes. */
  function Split(s: string): (r: seq<string>)
    ensures |r| > 0
  {
    if s == [] then [[]]
    else if s[0] == '/' then [[]] + Split(s[1..])
    else [[s[0]] + Split(s[1..])[0]] + Split(s[1..])[1..]
  }

  /** The last thing read: nothing, a digit or prefix, or an underscore. */
  datatype Last = Nothing | Digit | Underscore

  function DigitOf(c: char): nat {
    if '0' <= c <= '9' then c as nat - '0' as nat
    else if 'a' <= c <= 'z' then c as nat - 'a' as nat + 10
    else if 'A' <= c <= 'Z' then c as nat - 'A' as nat + 10
    else 63
  }

  /** Digits of base `b` with underscores between them, to the end of the text. */
  function Digits(s: string, b: nat, last: Last, count: nat, acc: nat): Option<nat> {
    if s == [] then if last == Underscore || count == 0 then None else Some(acc)
    else if s[0] == '_' then if last == Digit then Digits(s[1..], b, Underscore, count, acc) else None
    else if DigitOf(s[0]) < b then Digits(s[1..], b, Digit, count + 1, acc * b + DigitOf(s[0]))
    else None
  }

  function Unsigned(s: string): Option<nat> {
    if |s| >= 2 && s[0] == '0' then
      if s[1] in {'b', 'B'} then Digits(s[2..], 2, Digit, 0, 0)
      else if s[1] in {'o', 'O'} then Digits(s[2..], 8, Digit, 0, 0)
      else if s[1] in {'x', 'X'} then Digits(s[2..], 16, Digit, 0, 0)
      else Digits(s[1..], 8, Digit, 0, 0)
    else Digits(s, 10, Nothing, 0, 0)
  }

  /** `big.Int.SetString` with base 0: an optional sign, and a base from the prefix. */
  function SetString(s: string): Option<int> {
    if s == [] then None
    else if s[0] == '-' then match Unsigned(s[1..]) { case Some(v) => Some(0 - v) case None => None }
    else match Unsigned(if s[0] == '+' then s[1..] else s) { case Some(v) => Some(v) case None => None }
  }

  function DigitChar(d: nat, upper: bool): char
    requires d < 36
  {
    if d < 10 then '0' + d as char else if upper then 'A' + (d - 10) as char else 'a' + (d - 10) as char
  }

  predicate IsBase(b: nat) {
    b == 2 || b == 8 || b == 10 || b == 16
  }

  /** The text of a number in base `b`. */
  function Numeral(n: nat, b: nat, upper: bool): string
    requires IsBase(b)
  {
    (if n < b then [] else Numeral(n / b, b, upper)) + [DigitChar(n % b, upper)]
  }

  /** `%d`. */
  function Decimal(n: nat): string {
    Numeral(n, 10, false)
  }

  // ----- Specifications -----

  function ParseComponent(component: string): Option<nat> {
    var t := Trim(component);
    var hardened := |t| > 0 && t[|t| - 1] == '\'';
    var value := if hardened then HARDENED else 0;
    match SetString(if hardened then Trim(t[..|t| - 1]) else t)
    case None => None
    case Some(v) => if v < 0 || v > MAX_UINT32 - value then None else Some(value + v)
  }

  function ParseAll(components: seq<string>): Option<seq<nat>> {
    if components == [] then Some([])
    else match ParseAll(components[..|components| - 1])
      case None => None
      case Some(front) =>
        match ParseComponent(components[|components| - 1])
        case None => None
        case Some(v) => Some(front + [v])
  }

  /** What a path text means: absolute after `m`, otherwise below the default root. */
  function Meaning(path: string): Option<seq<nat>> {
    var components := Split(path);
    if Trim(components[0]) == [] then None
    else if Trim(components[0]) == "m" then if |components| == 1 then None else ParseAll(components[1..])
    else match ParseAll(components) { case None => None case Some(p) => Some(DEFAULT_ROOT + p) }
  }

  function ComponentText(c: nat): string {
    if c >= HARDENED then Decimal(c - HARDENED) + "'" else Decimal(c)
  }

  function Text(path: seq<nat>): string {
    if path == [] then "m" else Text(path[..|path| - 1]) + "/" + ComponentText(path[|path| - 1])
  }

  /** Relative paths start at the root of BIP-44 for coin type 60. */
  lemma DefaultRoot()
    ensures Text(DEFAULT_ROOT) == "m/44'/60'/0'/0"
  {
    var r := DEFAULT_ROOT;
    assert Decimal(44) == "44" && Decimal(60) == "60" && Decimal(0) == "0";
    assert r[..1][..0] == [] && r[..2][..1] == r[..1] && r[..3][..2] == r[..2] && r[..4] == r;
    assert Text(r[..1]) == "m" + "/" + "44'" == "m/44'";
    assert Text(r[..2]) == "m/44'" + "/" + "60'" == "m/44'/60'";
    assert Text(r[..3]) == "m/44'/60'" + "/" + "0'" == "m/44'/60'/0'";
  }

  ghost predicate IsPath(p: seq<nat>) {
    p != [] && forall i :: 0 <= i < |p| ==> p[i] <= MAX_UINT32
  }

  // ----- Parser and printer -----

  method ReadComponent(text: string) returns (r: Option<nat>)
    ensures r == ParseComponent(text)
  {
    hide Trim, SetString;
    var component := Trim(text);
    var value: nat := 0;
    if |component| > 0 && component[|component| - 1] == '\'' {
      value := HARDENED;
      component := Trim(component[..|component| - 1]);
    }
    var bigval := SetString(component);
    if bigval.None? {
      return None;
    }
    if bigval.value < 0 || bigval.value > MAX_UINT32 - value {
      return None;
    }
    r := Some(value + bigval.value);
  }

  method ParseDerivationPath(path: string) returns (r: Option<seq<nat>>)
    ensures r == Meaning(path)
  {
    hide Trim, Split, ParseComponent, ParseAll;
    var result: seq<nat> := [];
    var components := Split(path);
    if Trim(components[0]) == [] {
      return None;
    } else if Trim(components[0]) == "m" {
      components := components[1..];
    } else {
      result := result + DEFAULT_ROOT;
    }
    if |components| == 0 {
      return None;
    }
    ghost var root := result;
    assert root == [] || root == DEFAULT_ROOT;
    ParseNone(components);
    for i := 0 to |components|
      invariant ParseAll(components[..i]).Some? && result == root + ParseAll(components[..i]).value
    {
      ParseNext(components, i);
      var value := ReadComponent(components[i]);
      if value.None? {
        FailsFrom(components, i + 1);
        return None;
      }
      result := result + [value.value];
    }
    assert components[..|components|] == components;
    assert root == [] ==> result == ParseAll(components).value;
    r := Some(result);
  }

  lemma ParseNone(components: seq<string>)
    ensures ParseAll(components[..0]) == Some([])
  {}

  lemma ParseNext(components: seq<string>, i: nat)
    requires i < |components| && ParseAll(components[..i]).Some?
    ensures ParseAll(components[..i + 1]) ==
              if ParseComponent(components[i]).None? then None
              else Some(ParseAll(components[..i]).value + [ParseComponent(components[i]).value])
  {
    hide ParseComponent;
    assert components[..i + 1][..i] == components[..i];
  }

  method String(path: seq<nat>) returns (result: string)
    ensures result == Text(path)
  {
    result := "m";
    for i := 0 to |path|
      invariant result == Text(path[..i])
    {
      assert path[..i + 1][..i] == path[..i];
      var component := path[i];
      var hardened := component >= HARDENED;
      if hardened {
        component := component - HARDENED;
      }
      result := result + "/" + Decimal(component);
      if hardened {
        result := result + "'";
      }
      assert result == Text(path[..i]) + "/" + ComponentText(path[i]);
    }
    assert path[..|path|] == path;
  }

  /** A component that does not parse fails the whole path. */
  lemma {:induction false} FailsFrom(components: seq<string>, n: nat)
    requires n <= |components| && ParseAll(components[..n]) == None
    ensures ParseAll(components) == None
    decreases |components|
  {
    if n < |components| {
      assert components[..|components| - 1][..n] == components[..n];
      FailsFrom(components[..|components| - 1], n);
    } else {
      assert components[..n] == components;
    }
  }

  // ----- Printed numbers read back -----

  ghost predicate AllDigits(s: string, b: nat) {
    forall i :: 0 <= i < |s| ==> DigitOf(s[i]) < b
  }

  ghost function Value(s: string, b: nat, acc: nat): nat {
    if s == [] then acc else Value(s[1..], b, acc * b + DigitOf(s[0]))
  }

  lemma {:induction false} ValueAppends(s: string, c: char, b: nat, acc: nat)
    ensures Value(s + [c], b, acc) == Value(s, b, acc) * b + DigitOf(c)
  {
    if s == [] {
      assert (s + [c])[1..] == [];
    } else {
      assert (s + [c])[1..] == s[1..] + [c];
      ValueAppends(s[1..], c, b, acc * b + DigitOf(s[0]));
    }
  }

  /** Digits are read from the left, whatever follows. */
  lemma {:induction false} DigitsRead(s: string, rest: string, b: nat, last: Last, count: nat, acc: nat)
    requires AllDigits(s, b) && b <= 36 && s != []
    ensures Digits(s + rest, b, last, count, acc) == Digits(rest, b, Digit, count + |s|, Value(s, b, acc))
  {
    assert (s + rest)[1..] == s[1..] + rest;
    if |s| > 1 {
      DigitsRead(s[1..], rest, b, Digit, count + 1, acc * b + DigitOf(s[0]));
    } else {
      assert s[1..] + rest == rest;
    }
  }

  lemma {:induction false} NumeralReads(n: nat, b: nat, upper: bool)
    requires IsBase(b)
    ensures AllDigits(Numeral(n, b, upper), b) && |Numeral(n, b, upper)| > 0 && Value(Numeral(n, b, upper), b, 0) == n
    ensures Numeral(n, b, upper)[0] == '0' ==> n == 0
  {
    hide DigitOf, DigitChar, Value;
    Splits(n, b);
    DigitBack(n % b, upper);
    if n >= b {
      var front, c := Numeral(n / b, b, upper), DigitChar(n % b, upper);
      NumeralReads(n / b, b, upper);
      ValueAppends(front, c, b, 0);
      assert Numeral(n, b, upper) == front + [c];
    } else {
      ValueAppends([], DigitChar(n, upper), b, 0);
      assert Numeral(n, b, upper) == [] + [DigitChar(n, upper)];
      assert Value([], b, 0) == 0 by { NothingIsZero(b); }
    }
  }

  lemma NothingIsZero(b: nat)
    ensures Value([], b, 0) == 0
  {}

  lemma DigitBack(d: nat, upper: bool)
    requires d < 36
    ensures DigitOf(DigitChar(d, upper)) == d && (DigitChar(d, upper) == '0' ==> d == 0)
  {}

  lemma Splits(n: nat, b: nat)
    requires IsBase(b)
    ensures n / b * b + n % b == n && 0 <= n % b < b && (n >= b ==> 0 < n / b < n) && (n < b ==> n % b == n)
  {
    if b == 2 {
    } else if b == 8 {
    } else if b == 10 {
    }
  }

  /** A numeral of the right base is read as its number. */
  lemma WholeReads(n: nat, b: nat, upper: bool, last: Last)
    requires IsBase(b)
    ensures Digits(Numeral(n, b, upper), b, last, 0, 0) == Some(n)
  {
    NumeralReads(n, b, upper);
    DigitsRead(Numeral(n, b, upper), [], b, last, 0, 0);
    assert Numeral(n, b, upper) + [] == Numeral(n, b, upper);
  }

  lemma SetStringReads(n: nat)
    ensures SetString(Decimal(n)) == Some(n)
  {
    NumeralReads(n, 10, false);
    WholeReads(n, 10, false, Nothing);
  }

  /** Binary, octal and hexadecimal numbers, letters in either case, are read after their prefix,
      and octal ones also after a zero. */
  lemma PrefixedReads(n: nat, upper: bool)
    ensures SetString("0b" + Numeral(n, 2, upper)) == SetString("0B" + Numeral(n, 2, upper)) == Some(n)
    ensures SetString("0o" + Numeral(n, 8, upper)) == SetString("0O" + Numeral(n, 8, upper)) == Some(n)
    ensures SetString("0x" + Numeral(n, 16, upper)) == SetString("0X" + Numeral(n, 16, upper)) == Some(n)
    ensures SetString("0" + Numeral(n, 8, upper)) == Some(n)
  {
    hide Digits, Numeral;
    NumeralReads(n, 8, upper);
    WholeReads(n, 2, upper, Digit);
    WholeReads(n, 8, upper, Digit);
    WholeReads(n, 16, upper, Digit);
    assert ("0" + Numeral(n, 8, upper))[1] == Numeral(n, 8, upper)[0];
    AfterPrefix("0b", Numeral(n, 2, upper));
    AfterPrefix("0B", Numeral(n, 2, upper));
    AfterPrefix("0o", Numeral(n, 8, upper));
    AfterPrefix("0O", Numeral(n, 8, upper));
    AfterPrefix("0x", Numeral(n, 16, upper));
    AfterPrefix("0X", Numeral(n, 16, upper));
    AfterPrefix("0", Numeral(n, 8, upper));
  }

  lemma AfterPrefix(prefix: string, s: string)
    ensures (prefix + s)[|prefix|..] == s
  {}

  /** A sign may come first. */
  lemma SignReads(n: nat)
    ensures SetString("+" + Decimal(n)) == Some(n)
    ensures SetString("-" + Decimal(n)).Some? && SetString("-" + Decimal(n)).value + n == 0
  {
    SetStringReads(n);
    NumeralReads(n, 10, false);
    AfterPrefix("+", Decimal(n));
    AfterPrefix("-", Decimal(n));
  }

  /** An underscore between two digits is passed over. */
  lemma UnderscoreBetween(s: string, t: string, b: nat)
    requires AllDigits(s, b) && AllDigits(t, b) && b <= 36 && s != [] && t != []
    ensures Digits(s + "_" + t, b, Nothing, 0, 0) == Digits(s + t, b, Nothing, 0, 0) == Some(Value(s + t, b, 0))
  {
    hide AllDigits, Value;
    var value := Value(s, b, 0);
    DigitsRead(s, "_" + t, b, Nothing, 0, 0);
    DigitsRead(s, t, b, Nothing, 0, 0);
    DigitsRead(t, [], b, Underscore, |s|, value);
    DigitsRead(t, [], b, Digit, |s|, value);
    assert AllDigits(s + t, b) by { BothDigits(s, t, b); }
    DigitsRead(s + t, [], b, Nothing, 0, 0);
    assert s + "_" + t == s + ("_" + t) && t + [] == t && s + t + [] == s + t && ("_" + t)[1..] == t;
  }

  lemma BothDigits(s: string, t: string, b: nat)
    requires AllDigits(s, b) && AllDigits(t, b)
    ensures AllDigits(s + t, b)
  {}

  /** Anywhere else it spoils the number. */
  lemma UnderscoreElsewhere(s: string, rest: string, b: nat)
    requires AllDigits(s, b) && b <= 36 && s != []
    ensures Digits(s + "_", b, Nothing, 0, 0) == None == Digits("_" + rest, b, Nothing, 0, 0)
    ensures Digits(s + "__" + rest, b, Nothing, 0, 0) == None
  {
    DigitsRead(s, "_", b, Nothing, 0, 0);
    DigitsRead(s, "__" + rest, b, Nothing, 0, 0);
    assert s + "__" + rest == s + ("__" + rest) && ("__" + rest)[1..] == "_" + rest && "_"[1..] == [];
  }

  // ----- White space -----

  ghost predicate AllSpace(s: string) {
    forall i :: 0 <= i < |s| ==> IsSpace(s[i])
  }

  lemma {:induction false} TrimPadded(l: string, s: string, r: string)
    requires AllSpace(l) && AllSpace(r) && s != [] && !IsSpace(s[0]) && !IsSpace(s[|s| - 1])
    ensures Trim(l + s + r) == s
    decreases |l| + |r|
  {
    hide IsSpace;
    if l != [] {
      assert (l + s + r)[1..] == l[1..] + s + r;
      TrimPadded(l[1..], s, r);
    } else if r != [] {
      var short := r[..|r| - 1];
      assert l + s + r == s + r && l + s + short == s + short && (s + r)[..|s + r| - 1] == s + short;
      assert TrimLeft(s + r) == s + r && TrimLeft(s + short) == s + short;
      TrimPadded(l, s, short);
    } else {
      assert l + s + r == s;
    }
  }

  lemma TrimKeeps(s: string)
    requires s == [] || (!IsSpace(s[0]) && !IsSpace(s[|s| - 1]))
    ensures Trim(s) == s
  {}

  /** A plain number may fill 32 bits, a hardened one 31. */
  lemma NumberReads(n: nat)
    ensures ParseComponent(Decimal(n)) == if n <= MAX_UINT32 then Some(n) else None
    ensures ParseComponent(Decimal(n) + "'") == if n < HARDENED then Some(HARDENED + n) else None
    ensures '/' !in Decimal(n)
  {
    hide Trim, SetString, IsSpace, Value;
    DecimalIs(n);
    SetStringReads(n);
    TrimDecimal(n);
    var last := Decimal(n)[|Decimal(n)| - 1];
    assert '0' <= last <= '9';
    assert (Decimal(n) + "'")[..|Decimal(n)|] == Decimal(n);
  }

  lemma DecimalIs(n: nat)
    ensures |Decimal(n)| > 0 && forall i :: 0 <= i < |Decimal(n)| ==> '0' <= Decimal(n)[i] <= '9'
  {
    NumeralReads(n, 10, false);
  }

  /** White space around a component, and before its quote, does not matter. */
  lemma SpacesAround(n: nat, l: string, mid: string, r: string)
    requires AllSpace(l) && AllSpace(mid) && AllSpace(r)
    ensures ParseComponent(l + Decimal(n) + r) == ParseComponent(Decimal(n))
    ensures ParseComponent(l + (Decimal(n) + mid + "'") + r) == ParseComponent(Decimal(n) + "'")
  {
    hide Trim, SetString, IsSpace, Value, Decimal;
    var d := Decimal(n);
    DecimalIs(n);
    TrimDecimal(n);
    NotSpace(d[0]);
    NotSpace(d[|d| - 1]);
    NotSpace('\'');
    TrimPadded(l, d, r);
    TrimPadded(l, d + mid + "'", r);
    TrimPadded([], d, mid);
    assert [] + d + mid == d + mid && (d + mid + "'")[..|d + mid|] == d + mid && (d + "'")[..|d|] == d;
  }

  lemma NotSpace(c: char)
    requires '0' <= c <= '9' || c == '\''
    ensures !IsSpace(c)
  {}

  lemma TrimDecimal(n: nat)
    ensures Trim(Decimal(n)) == Decimal(n) && Trim(Decimal(n) + "'") == Decimal(n) + "'"
  {
    hide Decimal, Value;
    DecimalIs(n);
    TrimKeeps(Decimal(n));
    TrimKeeps(Decimal(n) + "'");
  }

  lemma ComponentReads(c: nat)
    requires c <= MAX_UINT32
    ensures ParseComponent(ComponentText(c)) == Some(c) && '/' !in ComponentText(c)
  {
    hide ParseComponent, Decimal;
    NumberReads(if c >= HARDENED then c - HARDENED else c);
  }

  // ----- Round trips -----

  lemma {:induction false} SplitLast(a: string, b: string)
    requires '/' !in b
    ensures Split(a + "/" + b) == Split(a) + [b]
  {
    if a == [] {
      assert (a + "/" + b)[1..] == b;
      SplitNone(b);
    } else {
      assert (a + "/" + b)[1..] == a[1..] + "/" + b;
      SplitLast(a[1..], b);
    }
  }

  lemma {:induction false} SplitNone(b: string)
    requires '/' !in b
    ensures Split(b) == [b]
  {
    if b != [] {
      SplitNone(b[1..]);
      assert b == [b[0]] + b[1..];
    }
  }

  lemma {:induction false} TextSplits(path: seq<nat>)
    requires forall i :: 0 <= i < |path| ==> path[i] <= MAX_UINT32
    ensures |Split(Text(path))| == |path| + 1 && Split(Text(path))[0] == "m"
    ensures ParseAll(Split(Text(path))[1..]) == Some(path)
  {
    hide ParseComponent, ComponentText;
    if path == [] {
      SplitNone("m");
    } else {
      var front, c := path[..|path| - 1], path[|path| - 1];
      TextSplits(front);
      ComponentReads(c);
      SplitLast(Text(front), ComponentText(c));
      var parts := Split(Text(front));
      assert (parts + [ComponentText(c)])[1..][..|path| - 1] == parts[1..];
      assert front + [c] == path;
    }
  }

  /** Reading a printed path gives it back, except for the empty one, which does not read. */
  lemma ParsePrinted(path: seq<nat>)
    requires forall i :: 0 <= i < |path| ==> path[i] <= MAX_UINT32
    ensures Meaning(Text(path)) == if path == [] then None else Some(path)
  {
    hide Text, ParseAll, Split;
    TextSplits(path);
    TrimKeeps("m");
  }

  lemma {:induction false} ParsedAreInRange(components: seq<string>)
    requires ParseAll(components).Some?
    ensures |ParseAll(components).value| == |components|
    ensures forall i :: 0 <= i < |components| ==> ParseAll(components).value[i] <= MAX_UINT32
  {
    if components != [] {
      ParsedAreInRange(components[..|components| - 1]);
    }
  }

  /** Whatever parses is a path of 32-bit components, and printing and parsing it again changes
      nothing. */
  lemma PrintParsed(text: string)
    requires Meaning(text).Some?
    ensures IsPath(Meaning(text).value) && Meaning(Text(Meaning(text).value)) == Meaning(text)
  {
    var components := Split(text);
    if Trim(components[0]) == "m" {
      ParsedAreInRange(components[1..]);
    } else {
      ParsedAreInRange(components);
    }
    ParsePrinted(Meaning(text).value);
  }
}
