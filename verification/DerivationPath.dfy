/** Hierarchical deterministic wallet paths, printed as m/44'/60'/0'/0 and parsed back. */
module DerivationPath {
  import opened Common

  type U32 = n: nat | n < 0x1_0000_0000

  const HARDENED: nat := 0x8000_0000
  const DEFAULT_ROOT: seq<U32> := [HARDENED + 44, HARDENED + 60, HARDENED + 0, 0]

  // ----- Text

  /** The parts of `s` between slashes. */
  function Split(s: string): (parts: seq<string>)
    ensures |parts| >= 1
  {
    if s == "" then [""]
    else
      var rest := Split(s[1..]);
      if s[0] == '/' then [""] + rest else [[s[0]] + rest[0]] + rest[1..]
  }

  predicate IsSpace(c: char) {
    || c in " \t\n\r" || c as int in {0x0B, 0x0C, 0x85, 0xA0, 0x1680, 0x2028, 0x2029, 0x202F, 0x205F, 0x3000}
    || 0x2000 <= c as int <= 0x200A
  }

  function TrimLeft(s: string): string {
    if s != "" && IsSpace(s[0]) then TrimLeft(s[1..]) else s
  }

  function TrimRight(s: string): string {
    if s != "" && IsSpace(s[|s| - 1]) then TrimRight(s[..|s| - 1]) else s
  }

  function TrimSpace(s: string): string {
    TrimRight(TrimLeft(s))
  }

  // ----- Numbers

  function DigitValue(c: char): nat {
    if '0' <= c <= '9' then c as nat - '0' as nat
    else if 'a' <= c <= 'z' then c as nat - 'a' as nat + 10
    else if 'A' <= c <= 'Z' then c as nat - 'A' as nat + 10
    else 36
  }

  /** What came before a character: a digit or a base prefix, an underscore, or nothing. */
  datatype Previous = Nothing | Digit | Underscore

  /** The value and the number of the digits of all of `s`, with underscores between digits. */
  function ScanDigits(s: string, base: nat, prev: Previous, value: nat, count: nat): Option<(nat, nat)>
    decreases |s|
  {
    if s == "" then
      if prev == Underscore then None else Some((value, count))
    else if s[0] == '_' then
      if prev == Digit then ScanDigits(s[1..], base, Underscore, value, count) else None
    else if DigitValue(s[0]) >= base then None
    else ScanDigits(s[1..], base, Digit, value * base + DigitValue(s[0]), count + 1)
  }

  /** At least one digit. */
  function ScanAll(s: string, base: nat, prev: Previous): Option<nat> {
    var r := ScanDigits(s, base, prev, 0, 0);
    if r == None || r.value.1 == 0 then None else Some(r.value.0)
  }

  /** An unsigned number, its base given by a prefix. */
  function ScanNat(s: string): Option<nat> {
    if s == "0" then Some(0)
    else if s != "" && s[0] == '0' then
      match s[1]
      case 'b' => ScanAll(s[2..], 2, Digit)
      case 'B' => ScanAll(s[2..], 2, Digit)
      case 'o' => ScanAll(s[2..], 8, Digit)
      case 'O' => ScanAll(s[2..], 8, Digit)
      case 'x' => ScanAll(s[2..], 16, Digit)
      case 'X' => ScanAll(s[2..], 16, Digit)
      case _ => ScanAll(s[1..], 8, Digit)
    else ScanAll(s, 10, Nothing)
  }

  function ScanInt(s: string): Option<int> {
    var signed := s != "" && (s[0] == '-' || s[0] == '+');
    var n := ScanNat(if signed then s[1..] else s);
    if n == None then None else Some(if signed && s[0] == '-' then 0 - n.value else n.value)
  }

  function Decimal(n: nat): string {
    if n < 10 then ['0' + n as char] else Decimal(n / 10) + ['0' + (n % 10) as char]
  }

  // ----- Parsing and printing

  function ParseComponent(text: string): Option<U32> {
    var component := TrimSpace(text);
    var hardened := component != "" && component[|component| - 1] == '\'';
    var value := if hardened then HARDENED else 0;
    var n := ScanInt(if hardened then TrimSpace(component[..|component| - 1]) else component);
    if n == None || n.value < 0 || n.value > 0xFFFF_FFFF - value then None else Some(value + n.value)
  }

  function ParseComponents(parts: seq<string>): Option<seq<U32>> {
    if parts == [] then Some([])
    else
      var front := ParseComponents(parts[..|parts| - 1]);
      var last := ParseComponent(parts[|parts| - 1]);
      if front == None || last == None then None else Some(front.value + [last.value])
  }

  function PrintComponent(component: U32): string {
    if component >= HARDENED then Decimal(component - HARDENED) + "'" else Decimal(component)
  }

  function Print(path: seq<U32>): string {
    if path == [] then "m" else Print(path[..|path| - 1]) + "/" + PrintComponent(path[|path| - 1])
  }

  function Parse(path: string): Option<seq<U32>> {
    var parts := Split(path);
    var first := TrimSpace(parts[0]);
    if first == "" then None
    else if first == "m" then if |parts| == 1 then None else ParseComponents(parts[1..])
    else
      var relative := ParseComponents(parts);
      if relative == None then None else Some(DEFAULT_ROOT + relative.value)
  }

  method PrintPath(path: seq<U32>) returns (result: string)
    ensures result == Print(path)
  {
    result := "m";
    for i := 0 to |path|
      invariant result == Print(path[..i])
    {
      var component: nat, hardened := path[i], false;
      if component >= HARDENED {
        component, hardened := component - HARDENED, true;
      }
      result := result + "/" + Decimal(component);
      if hardened {
        result := result + "'";
      }
      PrintMore(path, i);
    }
    assert path[..|path|] == path;
  }

  lemma PrintMore(path: seq<U32>, i: nat)
    requires i < |path|
    ensures Print(path[..i + 1]) == Print(path[..i]) + "/" + PrintComponent(path[i])
  {
    assert path[..i + 1][..i] == path[..i];
  }

  /** Parses a path, absolute with prefix m/ or relative to the default root. Every component fits 32 bits,
      the hardened offset included. */
  method ParsePath(path: string) returns (r: Option<seq<U32>>)
    ensures r == Parse(path)
  {
    hide Split, TrimSpace, ParseComponents;
    var components := Split(path);
    var result: seq<U32> := [];
    if TrimSpace(components[0]) == "" {
      return None;
    } else if TrimSpace(components[0]) == "m" {
      components := components[1..];
    } else {
      result := DEFAULT_ROOT;
    }
    if |components| == 0 {
      return None;
    }
    r := AppendComponents(result, components);
    if r.Some? && result == [] {
      assert result + ParseComponents(components).value == ParseComponents(components).value;
    }
  }

  method AppendComponents(root: seq<U32>, components: seq<string>) returns (r: Option<seq<U32>>)
    ensures r == if ParseComponents(components) == None then None else Some(root + ParseComponents(components).value)
  {
    hide ParseComponent;
    var result := root;
    for i := 0 to |components|
      invariant ParseComponents(components[..i]).Some? && result == root + ParseComponents(components[..i]).value
    {
      var value := ParseComponent(components[i]);
      ParseMore(components, i);
      if value == None {
        ParseStops(components, i + 1);
        return None;
      }
      result := result + [value.value];
    }
    assert components[..|components|] == components;
    r := Some(result);
  }

  lemma ParseMore(parts: seq<string>, i: nat)
    requires i < |parts|
    ensures ParseComponents(parts[..i + 1]) ==
            if ParseComponents(parts[..i]) == None || ParseComponent(parts[i]) == None then None
            else Some(ParseComponents(parts[..i]).value + [ParseComponent(parts[i]).value])
  {
    assert parts[..i + 1][..i] == parts[..i];
  }

  lemma {:induction false} ParseStops(parts: seq<string>, i: nat)
    requires i <= |parts| && ParseComponents(parts[..i]) == None
    ensures ParseComponents(parts) == None
    decreases |parts| - i
  {
    if i == |parts| {
      assert parts[..i] == parts;
    } else {
      ParseMore(parts, i);
      ParseStops(parts, i + 1);
    }
  }

  // ----- The round trip

  ghost predicate Plain(s: string) {
    forall k | 0 <= k < |s| :: '0' <= s[k] <= '9'
  }

  /** A number prints as digits, the first one not 0 unless it is the only one. */
  lemma {:induction false} DecimalPlain(n: nat)
    ensures Plain(Decimal(n)) && Decimal(n) != "" && (Decimal(n)[0] == '0' ==> Decimal(n) == "0")
    decreases n
  {
    if n >= 10 {
      DecimalPlain(n / 10);
      assert Decimal(n / 10) == "0" ==> n / 10 == 0 by {
        DecimalZero(n / 10);
      }
    }
  }

  lemma DecimalZero(n: nat)
    ensures Decimal(n) == "0" ==> n == 0
  {
    if n >= 10 {
      assert |Decimal(n / 10)| >= 1 by {
        DecimalLength(n / 10);
      }
    }
  }

  lemma {:induction false} DecimalLength(n: nat)
    ensures |Decimal(n)| >= 1
  {
  }

  lemma {:induction false} ScanMore(s: string, c: char, base: nat, prev: Previous, value: nat, count: nat)
    requires c != '_' && DigitValue(c) < base
    requires ScanDigits(s, base, prev, value, count).Some?
    ensures var r := ScanDigits(s, base, prev, value, count).value;
            ScanDigits(s + [c], base, prev, value, count) == Some((r.0 * base + DigitValue(c), r.1 + 1))
    decreases |s|
  {
    hide DigitValue;
    if s == "" {
      assert s + [c] == [c] && [c][1..] == "";
    } else {
      assert (s + [c])[1..] == s[1..] + [c];
      if s[0] == '_' {
        ScanMore(s[1..], c, base, Underscore, value, count);
      } else {
        ScanMore(s[1..], c, base, Digit, value * base + DigitValue(s[0]), count + 1);
      }
    }
  }

  lemma {:induction false} ScanDecimal(n: nat)
    ensures ScanDigits(Decimal(n), 10, Nothing, 0, 0) == Some((n, |Decimal(n)|))
    decreases n
  {
    if n >= 10 {
      ScanDecimal(n / 10);
      ScanMore(Decimal(n / 10), '0' + (n % 10) as char, 10, Nothing, 0, 0);
      assert n / 10 * 10 + n % 10 == n;
    } else {
      assert Decimal(n)[1..] == "";
    }
  }

  function DigitChar(d: nat): (c: char)
    requires d < 16
    ensures DigitValue(c) == d && c != '_' && (d < 8 ==> '0' <= c <= '7')
  {
    if d < 10 then '0' + d as char else 'a' + (d - 10) as char
  }

  /** A number in a base of up to 16, with lower-case digits. */
  function InBase(n: nat, base: nat): string
    requires 2 <= base <= 16
  {
    if n < base then [DigitChar(n)]
    else
      Parts(n, base);
      InBase(n / base, base) + [DigitChar(n % base)]
  }

  lemma Parts(n: nat, base: nat)
    requires 2 <= base <= n
    ensures n / base < n && n % base < base && n / base * base + n % base == n
  {
  }

  lemma {:induction false} ScanInBase(n: nat, base: nat)
    requires 2 <= base <= 16
    ensures ScanDigits(InBase(n, base), base, Digit, 0, 0) == Some((n, |InBase(n, base)|)) && InBase(n, base) != ""
    decreases n
  {
    if n >= base {
      Parts(n, base);
      ScanInBase(n / base, base);
      ScanAppend(InBase(n / base, base), n / base, n % base, base);
    } else {
      ScanAppend("", 0, n, base);
      assert "" + [DigitChar(n)] == [DigitChar(n)];
    }
  }

  lemma ScanAppend(s: string, q: nat, r: nat, base: nat)
    requires r < base <= 16 && ScanDigits(s, base, Digit, 0, 0) == Some((q, |s|))
    ensures ScanDigits(s + [DigitChar(r)], base, Digit, 0, 0) == Some((q * base + r, |s| + 1))
  {
    hide DigitValue, ScanDigits;
    ScanMore(s, DigitChar(r), base, Digit, 0, 0);
  }

  /** A prefix gives the base: hexadecimal, binary, or octal with or without its letter. */
  lemma PrefixedRoundTrip(n: nat)
    ensures ScanInt("0x" + InBase(n, 16)) == ScanInt("0X" + InBase(n, 16)) == Some(n)
    ensures ScanInt("0b" + InBase(n, 2)) == ScanInt("0B" + InBase(n, 2)) == Some(n)
    ensures ScanInt("0o" + InBase(n, 8)) == ScanInt("0O" + InBase(n, 8)) == ScanInt("0" + InBase(n, 8)) == Some(n)
  {
    hide ScanDigits, InBase, DigitValue;
    PrefixScanned("0x", n, 16);
    PrefixScanned("0X", n, 16);
    PrefixScanned("0b", n, 2);
    PrefixScanned("0B", n, 2);
    PrefixScanned("0o", n, 8);
    PrefixScanned("0O", n, 8);
    var s := "0" + InBase(n, 8);
    ScanInBase(n, 8);
    OctalFirst(n);
    assert s[1..] == InBase(n, 8) && s != "0" && s[1] == InBase(n, 8)[0];
  }

  lemma PrefixScanned(prefix: string, n: nat, base: nat)
    requires 2 <= base <= 16 && |prefix| == 2
    ensures (prefix + InBase(n, base))[2..] == InBase(n, base) && ScanAll(InBase(n, base), base, Digit) == Some(n)
  {
    ScanInBase(n, base);
  }

  lemma {:induction false} OctalFirst(n: nat)
    ensures InBase(n, 8) != "" && '0' <= InBase(n, 8)[0] <= '7'
    decreases n
  {
    hide DigitChar, DigitValue;
    if n >= 8 {
      OctalFirst(n / 8);
    }
  }

  lemma ScanPrinted(n: nat)
    ensures ScanInt(Decimal(n)) == Some(n)
  {
    DecimalPlain(n);
    ScanDecimal(n);
    DecimalZero(n);
    assert Decimal(n)[0] != '-' && Decimal(n)[0] != '+';
  }

  lemma TrimPlain(s: string)
    requires s != "" && !IsSpace(s[0]) && !IsSpace(s[|s| - 1])
    ensures TrimSpace(s) == s
  {
  }

  lemma ComponentRoundTrip(c: U32)
    ensures ParseComponent(PrintComponent(c)) == Some(c)
  {
    hide ScanInt, Decimal, TrimSpace, IsSpace;
    var n := if c >= HARDENED then c - HARDENED else c;
    var d := Decimal(n);
    DecimalPlain(n);
    ScanPrinted(n);
    TrimDigits(d);
    if c >= HARDENED {
      assert (d + "'")[..|d + "'"| - 1] == d;
    }
  }

  lemma TrimDigits(d: string)
    requires Plain(d) && d != ""
    ensures TrimSpace(d) == d && TrimSpace(d + "'") == d + "'" && d[|d| - 1] != '\''
  {
    TrimPlain(d);
    TrimPlain(d + "'");
  }

  /** Every number in decimal is a component exactly if it fits 32 bits, the hardened offset included; a minus sign
      is refused unless the number is 0. */
  lemma ComponentRange(n: nat)
    ensures ParseComponent(Decimal(n)) == if n <= 0xFFFF_FFFF then Some(n) else None
    ensures ParseComponent(Decimal(n) + "'") == if n <= 0x7FFF_FFFF then Some(HARDENED + n) else None
    ensures ParseComponent("-" + Decimal(n)) == if n == 0 then Some(0) else None
    ensures ParseComponent("-" + Decimal(n) + "'") == if n == 0 then Some(HARDENED) else None
  {
    hide ScanNat, Decimal, TrimSpace, IsSpace;
    var d := Decimal(n);
    DecimalPlain(n);
    ScanPrinted(n);
    TrimDigits(d);
    TrimMinus(d);
    assert (d + "'")[..|d|] == d && ("-" + d + "'")[..|d| + 1] == "-" + d;
    assert ("-" + d)[1..] == d;
    assert ScanNat(d) == Some(n) by {
      assert d[0] != '-' && d[0] != '+';
    }
  }

  lemma TrimMinus(d: string)
    requires Plain(d) && d != ""
    ensures TrimSpace("-" + d) == "-" + d && TrimSpace("-" + d + "'") == "-" + d + "'"
  {
    TrimPlain("-" + d);
    TrimPlain("-" + d + "'");
  }

  ghost predicate Blank(s: string) {
    forall k | 0 <= k < |s| :: IsSpace(s[k])
  }

  lemma {:induction false} TrimLeftBlank(pre: string, s: string)
    requires Blank(pre)
    ensures TrimLeft(pre + s) == TrimLeft(s)
    decreases |pre|
  {
    if pre == "" {
      assert pre + s == s;
    } else {
      assert (pre + s)[1..] == pre[1..] + s;
      TrimLeftBlank(pre[1..], s);
    }
  }

  lemma {:induction false} TrimRightBlank(s: string, post: string)
    requires Blank(post)
    ensures TrimRight(s + post) == TrimRight(s)
    decreases |post|
  {
    if post == "" {
      assert s + post == s;
    } else {
      assert (s + post)[..|s + post| - 1] == s + post[..|post| - 1];
      TrimRightBlank(s, post[..|post| - 1]);
    }
  }

  lemma {:induction false} TrimLeftAppend(s: string, post: string)
    requires Blank(post)
    ensures TrimLeft(s + post) == TrimLeft(s) + post || (TrimLeft(s) == "" && Blank(TrimLeft(s + post)))
    decreases |s|
  {
    if s != "" && IsSpace(s[0]) {
      assert (s + post)[1..] == s[1..] + post;
      TrimLeftAppend(s[1..], post);
    } else if s == "" {
      TrimLeftBlank(post, "");
      assert s + post == post + "";
    }
  }

  lemma TrimBlank(pre: string, s: string, post: string)
    requires Blank(pre) && Blank(post)
    ensures TrimSpace(pre + s + post) == TrimSpace(s)
  {
    hide IsSpace;
    assert pre + s + post == pre + (s + post);
    TrimLeftBlank(pre, s + post);
    TrimLeftAppend(s, post);
    if TrimLeft(s + post) == TrimLeft(s) + post {
      TrimRightBlank(TrimLeft(s), post);
    } else {
      TrimRightBlank("", TrimLeft(s + post));
      assert "" + TrimLeft(s + post) == TrimLeft(s + post);
    }
  }

  /** Whitespace around a component is ignored. */
  lemma BlanksIgnored(pre: string, s: string, post: string)
    requires Blank(pre) && Blank(post)
    ensures ParseComponent(pre + s + post) == ParseComponent(s)
  {
    hide TrimSpace, ScanInt;
    TrimBlank(pre, s, post);
  }

  /** A path that is blank, or blank up to its first slash, is refused: it is neither absolute nor relative. */
  lemma AmbiguousRefused(blank: string, t: string)
    requires Blank(blank)
    ensures Parse(blank) == None && Parse(blank + "/" + t) == None
  {
    hide IsSpace, TrimSpace, ParseComponents;
    assert NoSlash(blank) by {
      assert !IsSpace('/') by {
        SlashNotSpace();
      }
    }
    SplitNone(blank);
    SplitFirst(blank, t);
    TrimBlank(blank, "", "");
    assert blank + "" + "" == blank;
    assert TrimSpace("") == "" by {
      TrimNothing();
    }
  }

  lemma SlashNotSpace()
    ensures !IsSpace('/')
  {
  }

  lemma TrimNothing()
    ensures TrimSpace("") == ""
  {
  }

  lemma {:induction false} SplitFirst(s: string, t: string)
    requires NoSlash(s)
    ensures Split(s + "/" + t)[0] == s
    decreases |s|
  {
    var whole := s + "/" + t;
    if s != "" {
      assert whole[1..] == s[1..] + "/" + t;
      SplitFirst(s[1..], t);
    }
  }

  /** The default root in the notation of BIP-44. */
  lemma DefaultRoot()
    ensures Print(DEFAULT_ROOT) == "m/44'/60'/0'/0"
  {
    hide Decimal;
    assert Decimal(44) == "44" && Decimal(60) == "60" && Decimal(0) == "0" by {
      SmallDecimals();
    }
    var r := DEFAULT_ROOT;
    assert r[..1][..0] == [] && r[..2][..1] == r[..1] && r[..3][..2] == r[..2] && r[..4] == r;
    assert Print(r[..1]) == "m" + "/" + "44'" == "m/44'";
    assert Print(r[..2]) == "m/44'" + "/" + "60'" == "m/44'/60'";
    assert Print(r[..3]) == "m/44'/60'" + "/" + "0'" == "m/44'/60'/0'";
    assert Print(r) == "m/44'/60'/0'" + "/" + "0";
  }

  lemma SmallDecimals()
    ensures Decimal(44) == "44" && Decimal(60) == "60" && Decimal(0) == "0"
  {
    assert Decimal(4) == "4" && Decimal(6) == "6";
    assert 44 / 10 == 4 && 44 % 10 == 4 && 60 / 10 == 6 && 60 % 10 == 0;
  }

  ghost predicate NoSlash(s: string) {
    forall k | 0 <= k < |s| :: s[k] != '/'
  }

  lemma ComponentNoSlash(c: U32)
    ensures NoSlash(PrintComponent(c))
  {
    DecimalPlain(if c >= HARDENED then c - HARDENED else c);
  }

  lemma {:induction false} SplitNone(s: string)
    requires NoSlash(s)
    ensures Split(s) == [s]
    decreases |s|
  {
    if s != "" {
      SplitNone(s[1..]);
      assert [s[0]] + s[1..] == s;
    }
  }

  lemma {:induction false} SplitMore(s: string, t: string)
    requires NoSlash(t)
    ensures Split(s + "/" + t) == Split(s) + [t]
    decreases |s|
  {
    var whole := s + "/" + t;
    if s == "" {
      assert whole == "/" + t && whole[1..] == t;
      SplitNone(t);
    } else {
      SplitMore(s[1..], t);
      assert whole[1..] == s[1..] + "/" + t;
    }
  }

  ghost function Printed(path: seq<U32>): seq<string> {
    if path == [] then [] else Printed(path[..|path| - 1]) + [PrintComponent(path[|path| - 1])]
  }

  lemma {:induction false} SplitPrinted(path: seq<U32>)
    ensures Split(Print(path)) == ["m"] + Printed(path)
    decreases |path|
  {
    if path == [] {
      SplitNone("m");
    } else {
      SplitPrinted(path[..|path| - 1]);
      ComponentNoSlash(path[|path| - 1]);
      SplitMore(Print(path[..|path| - 1]), PrintComponent(path[|path| - 1]));
    }
  }

  lemma {:induction false} ParsePrinted(path: seq<U32>)
    ensures ParseComponents(Printed(path)) == Some(path) && |Printed(path)| == |path|
    decreases |path|
  {
    hide ParseComponent, PrintComponent;
    if path != [] {
      var front, last := path[..|path| - 1], path[|path| - 1];
      ParsePrinted(front);
      ComponentRoundTrip(last);
      assert Printed(path)[..|path| - 1] == Printed(front);
      assert front + [last] == path;
    }
  }

  /** Parsing the printed form returns the path, exactly if the path is not empty. */
  lemma RoundTrip(path: seq<U32>)
    ensures Parse(Print(path)) == Some(path) <==> path != []
  {
    hide Split, ParseComponents, Printed, Print;
    SplitPrinted(path);
    ParsePrinted(path);
    TrimPlain("m");
    assert (["m"] + Printed(path))[1..] == Printed(path);
  }

  lemma {:induction false} PrintedPrefix(path: seq<U32>)
    requires path != []
    ensures |Print(path)| >= 2 && Print(path)[..2] == "m/"
    decreases |path|
  {
    if |path| > 1 {
      PrintedPrefix(path[..|path| - 1]);
    } else {
      assert path[..|path| - 1] == [];
    }
  }

  lemma {:induction false} FirstPrinted(path: seq<U32>)
    requires path != []
    ensures Printed(path) != [] && Printed(path)[0] == PrintComponent(path[0])
    decreases |path|
  {
    if |path| > 1 {
      FirstPrinted(path[..|path| - 1]);
    }
  }

  /** What follows the prefix m/ of a printed path is parsed relative to the default root. */
  lemma RelativeRoundTrip(path: seq<U32>)
    requires path != []
    ensures |Print(path)| >= 2 && Parse(Print(path)[2..]) == Some(DEFAULT_ROOT + path)
  {
    hide Split, ParseComponents, Printed, Print, TrimSpace, Decimal;
    PrintedPrefix(path);
    SplitPrinted(path);
    ParsePrinted(path);
    FirstPrinted(path);
    var t := Print(path)[2..];
    assert Print(path) == "m/" + t;
    SplitPrefix(t);
    assert Split(t) == Printed(path) by {
      assert (["m"] + Split(t))[1..] == Split(t) && (["m"] + Printed(path))[1..] == Printed(path);
    }
    var n := if path[0] >= HARDENED then path[0] - HARDENED else path[0];
    DecimalPlain(n);
    TrimDigits(Decimal(n));
    assert PrintComponent(path[0])[0] == Decimal(n)[0];
  }

  lemma SplitPrefix(t: string)
    ensures Split("m/" + t) == ["m"] + Split(t)
  {
    var whole := "m/" + t;
    assert whole[1..] == "/" + t && ("/" + t)[1..] == t;
    var slash := [""] + Split(t);
    assert Split("/" + t) == slash && slash[1..] == Split(t);
    assert ['m'] + slash[0] == "m";
  }
}
