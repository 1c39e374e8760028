/** Wallet derivation paths as text (accounts/hd.go), after BIP-32. */
module DerivationPaths {
  import opened Basics

  type Uint32 = x: nat | x < 0x1_0000_0000

  const HARDENED: nat := 0x8000_0000

  const DEFAULT_ROOT: seq<Uint32> := [0x8000_0000 + 44, 0x8000_0000 + 60, 0x8000_0000 + 0, 0]

  // ---------------------------------------------------------------- strings

  ghost predicate NoSlash(s: string) {
    forall i | 0 <= i < |s| :: s[i] != '/'
  }

  function FirstSlash(s: string): (i: nat)
    ensures i <= |s| && NoSlash(s[..i]) && (i < |s| ==> s[i] == '/')
  {
    if s == "" || s[0] == '/' then 0 else 1 + FirstSlash(s[1..])
  }

  /** The pieces between the slashes; at least one. */
  function Split(s: string): (r: seq<string>)
    ensures |r| >= 1 && forall i | 0 <= i < |r| :: NoSlash(r[i])
    decreases |s|
  {
    var i := FirstSlash(s);
    if i == |s| then assert s[..i] == s; [s] else [s[..i]] + Split(s[i + 1..])
  }

  lemma {:induction false} FirstSlashIs(s: string, i: nat)
    requires i <= |s| && NoSlash(s[..i]) && (i < |s| ==> s[i] == '/')
    ensures FirstSlash(s) == i
    decreases i
  {
    if i > 0 {
      assert s[0] == s[..i][0];
      assert s[1..][..i - 1] == s[..i][1..];
      FirstSlashIs(s[1..], i - 1);
    }
  }

  /** A piece added after a slash is split off again. */
  lemma {:induction false} SplitLast(a: string, b: string)
    requires NoSlash(b)
    ensures Split(a + "/" + b) == Split(a) + [b]
    decreases |a|
  {
    var s, i := a + "/" + b, FirstSlash(a);
    assert s[..i] == a[..i];
    FirstSlashIs(s, i);
    if i == |a| {
      assert s[..i] == a && s[i + 1..] == b && b[..|b|] == b;
      FirstSlashIs(b, |b|);
    } else {
      assert s[i + 1..] == a[i + 1..] + "/" + b;
      SplitLast(a[i + 1..], b);
    }
  }

  predicate IsSpace(c: char) {
    var n := c as int;
    || 9 <= n <= 13 || n == 32 || n == 0x85 || n == 0xA0 || n == 0x1680 || 0x2000 <= n <= 0x200A
    || n == 0x2028 || n == 0x2029 || n == 0x202F || n == 0x205F || n == 0x3000
  }

  /** The white space of the Unicode standard. */
  lemma SpacesAre(c: char)
    ensures IsSpace(c) <==> c as int in {0x09, 0x0A, 0x0B, 0x0C, 0x0D, 0x20, 0x85, 0xA0, 0x1680, 0x2000, 0x2001, 0x2002, 0x2003,
      0x2004, 0x2005, 0x2006, 0x2007, 0x2008, 0x2009, 0x200A, 0x2028, 0x2029, 0x202F, 0x205F, 0x3000}
  {
  }

  function TrimLeft(s: string): string {
    if s != "" && IsSpace(s[0]) then TrimLeft(s[1..]) else s
  }

  function TrimSpace(s: string): string {
    var t := TrimLeft(s);
    TrimRight(t)
  }

  function TrimRight(s: string): string {
    if s != "" && IsSpace(s[|s| - 1]) then TrimRight(s[..|s| - 1]) else s
  }

  lemma TrimKeeps(s: string)
    requires s != "" && !IsSpace(s[0]) && !IsSpace(s[|s| - 1])
    ensures TrimSpace(s) == s
  {
  }

  /** White space around a text does not count. */
  lemma {:induction false} SpacesIgnored(c: char, s: string)
    requires IsSpace(c)
    ensures TrimSpace([c] + s) == TrimSpace(s + [c]) == TrimSpace(s)
    ensures IsSpace(' ') && IsSpace('\t') && IsSpace('\n') && IsSpace('\r')
    decreases |s|
  {
    hide IsSpace;
    assert ([c] + s)[1..] == s;
    TrimsAfter(c, s);
    assert (TrimLeft(s) + [c])[..|TrimLeft(s)|] == TrimLeft(s);
    PlainSpaces();
  }

  lemma PlainSpaces()
    ensures IsSpace(' ') && IsSpace('\t') && IsSpace('\n') && IsSpace('\r')
  {
  }

  lemma {:induction false} TrimsAfter(c: char, s: string)
    requires IsSpace(c)
    ensures TrimLeft(s + [c]) == if TrimLeft(s) == "" then "" else TrimLeft(s) + [c]
    decreases |s|
  {
    hide IsSpace;
    if s == "" {
      assert s + [c] == [c] && [c][1..] == "";
    } else if IsSpace(s[0]) {
      TrimsAfter(c, s[1..]);
      assert (s + [c])[1..] == s[1..] + [c];
    }
  }

  // ---------------------------------------------------------------- numbers

  /** The value of a digit, at least 36 for other characters. */
  function DigitOf(c: char): nat {
    if '0' <= c <= '9' then c as nat - '0' as nat
    else if 'a' <= c <= 'z' then c as nat - 'a' as nat + 10
    else if 'A' <= c <= 'Z' then c as nat - 'A' as nat + 10
    else 36
  }

  function Digits(s: string, base: nat): Option<nat> {
    if s == "" then None
    else
      var d := DigitOf(s[|s| - 1]);
      if d >= base then None
      else if |s| == 1 then Some(d)
      else
        var high := Digits(s[..|s| - 1], base);
        if high == None then None else Some(high.value * base + d)
  }

  /** A text is a number in a base exactly if all its characters are digits of that base. */
  lemma {:induction false} DigitsExactly(s: string, base: nat)
    ensures Digits(s, base).Some? <==> s != "" && forall i | 0 <= i < |s| :: DigitOf(s[i]) < base
    decreases |s|
  {
    hide DigitOf;
    if |s| > 1 {
      DigitsExactly(s[..|s| - 1], base);
    }
  }

  /** Underscores may separate digits, or a base prefix from them. */
  predicate Separated(s: string, prefixed: bool) {
    forall i | 0 <= i < |s| && s[i] == '_' :: (if i == 0 then prefixed else s[i - 1] != '_') && i + 1 < |s|
  }

  function WithoutSeparators(s: string): string {
    if s == "" then ""
    else WithoutSeparators(s[..|s| - 1]) + if s[|s| - 1] == '_' then "" else [s[|s| - 1]]
  }

  lemma {:induction false} NoSeparators(s: string)
    requires forall i | 0 <= i < |s| :: s[i] != '_'
    ensures WithoutSeparators(s) == s && Separated(s, false)
    decreases |s|
  {
    if s != "" {
      NoSeparators(s[..|s| - 1]);
    }
  }

  function SeparatedDigits(s: string, base: nat, prefixed: bool): Option<nat> {
    if Separated(s, prefixed) then Digits(WithoutSeparators(s), base) else None
  }

  /** An unsigned number with an optional base prefix: 0x, 0b, 0o, or a leading 0 for octal. */
  function Unsigned(s: string): Option<nat> {
    if |s| >= 2 && s[0] == '0' then
      if s[1] == 'x' || s[1] == 'X' then SeparatedDigits(s[2..], 16, true)
      else if s[1] == 'b' || s[1] == 'B' then SeparatedDigits(s[2..], 2, true)
      else if s[1] == 'o' || s[1] == 'O' then SeparatedDigits(s[2..], 8, true)
      else SeparatedDigits(s[1..], 8, true)
    else SeparatedDigits(s, 10, false)
  }

  function Number(s: string): Option<int> {
    if s != "" && (s[0] == '-' || s[0] == '+') then
      var n := Unsigned(s[1..]);
      if n == None then None else Some(if s[0] == '-' then 0 - n.value else n.value)
    else
      var n := Unsigned(s);
      if n == None then None else Some(n.value)
  }

  function DigitChar(d: nat): char
    requires d < 10
  {
    "0123456789"[d]
  }

  function Decimal(n: nat): (s: string)
    ensures s != "" && forall i | 0 <= i < |s| :: '0' <= s[i] <= '9'
    ensures |s| > 1 ==> s[0] != '0'
    decreases n
  {
    if n < 10 then [DigitChar(n)] else Decimal(n / 10) + [DigitChar(n % 10)]
  }

  lemma {:induction false} DecimalDigits(n: nat)
    ensures Digits(Decimal(n), 10) == Some(n)
    decreases n
  {
    if n >= 10 {
      DecimalDigits(n / 10);
      DigitsAdd(Decimal(n / 10), n % 10);
    }
  }

  lemma DigitsAdd(s: string, d: nat)
    requires s != "" && d < 10
    ensures Digits(s + [DigitChar(d)], 10) == if Digits(s, 10) == None then None else Some(Digits(s, 10).value * 10 + d)
  {
    var t := s + [DigitChar(d)];
    assert t[..|t| - 1] == s;
    assert DigitOf(DigitChar(d)) == d;
  }

  lemma DecimalNumber(n: nat)
    ensures Number(Decimal(n)) == Some(n)
  {
    DecimalDigits(n);
    var s := Decimal(n);
    assert '0' <= s[0] <= '9';
    hide *;
    PlainNumber(s, n);
  }

  lemma PlainNumber(s: string, n: nat)
    requires s != "" && (forall i | 0 <= i < |s| :: '0' <= s[i] <= '9') && (|s| > 1 ==> s[0] != '0') && Digits(s, 10) == Some(n)
    ensures Number(s) == Some(n)
  {
    hide Digits, Separated, WithoutSeparators;
    NoSeparators(s);
    assert '0' <= s[0] <= '9';
  }

  /** A digit of a base up to 16. */
  ghost function HexChar(d: nat): char
    requires d < 16
  {
    if d < 10 then ('0' as int + d) as char else ('a' as int + d - 10) as char
  }

  lemma HexDigit(d: nat)
    requires d < 16
    ensures DigitOf(HexChar(d)) == d && HexChar(d) != '_' && (d < 10 ==> '0' <= HexChar(d) <= '9')
  {
  }

  /** A number written in a base. */
  ghost function Written(n: nat, base: nat): (s: string)
    requires 2 <= base <= 16
    ensures s != ""
    decreases n
  {
    if n < base then [HexChar(n)] else Written(n / base, base) + [HexChar(n % base)]
  }

  lemma {:induction false} WrittenDigits(n: nat, base: nat)
    requires 2 <= base <= 16
    ensures Digits(Written(n, base), base) == Some(n)
    ensures forall i | 0 <= i < |Written(n, base)| :: Written(n, base)[i] != '_'
    ensures base <= 10 ==> '0' <= Written(n, base)[0] <= '9'
    decreases n
  {
    hide *;
    WrittenIs(n, base);
    if n < base {
      HexDigit(n);
      OneDigit(HexChar(n), base);
    } else {
      DivMod(n, base);
      HexDigit(n % base);
      WrittenDigits(n / base, base);
      LastDigit(Written(n / base, base), HexChar(n % base), base, n / base, n % base);
    }
  }

  lemma WrittenIs(n: nat, base: nat)
    requires 2 <= base <= 16
    ensures Written(n, base) == if n < base then [HexChar(n)] else Written(n / base, base) + [HexChar(n % base)]
  {
  }

  lemma DivMod(n: nat, base: nat)
    requires 2 <= base <= n
    ensures n / base * base + n % base == n && n / base < n && n % base < base
  {
  }

  lemma OneDigit(c: char, base: nat)
    requires DigitOf(c) < base
    ensures Digits([c], base) == Some(DigitOf(c))
  {
  }

  lemma LastDigit(s: string, c: char, base: nat, high: nat, d: nat)
    requires s != "" && Digits(s, base) == Some(high) && DigitOf(c) == d < base
    ensures Digits(s + [c], base) == Some(high * base + d)
  {
    hide DigitOf;
    assert (s + [c])[..|s|] == s;
  }

  /** The letters are digits from ten on, in either case. */
  lemma LetterDigits(d: nat)
    requires 10 <= d < 36
    ensures DigitOf(('a' as int + d - 10) as char) == d && DigitOf(('A' as int + d - 10) as char) == d
  {
  }

  lemma WrittenSeparated(n: nat, base: nat)
    requires 2 <= base <= 16
    ensures SeparatedDigits(Written(n, base), base, true) == Some(n)
  {
    hide Written, Digits, WithoutSeparators, Separated;
    WrittenDigits(n, base);
    NoSeparators(Written(n, base));
    SeparatedMore(Written(n, base));
  }

  lemma SeparatedMore(s: string)
    requires forall i | 0 <= i < |s| :: s[i] != '_'
    ensures Separated(s, true)
  {
  }

  /** A number in hexadecimal, binary or octal is read back behind its prefix; a leading zero alone means octal. */
  lemma PrefixedNumber(n: nat)
    ensures Number("0x" + Written(n, 16)) == Number("0X" + Written(n, 16)) == Some(n)
    ensures Number("0b" + Written(n, 2)) == Number("0B" + Written(n, 2)) == Some(n)
    ensures Number("0o" + Written(n, 8)) == Number("0O" + Written(n, 8)) == Some(n)
    ensures Number("0" + Written(n, 8)) == Some(n)
  {
    hide Written, SeparatedDigits, Number;
    WrittenSeparated(n, 16);
    WrittenSeparated(n, 2);
    WrittenSeparated(n, 8);
    WrittenDigits(n, 8);
    Behind("0x", Written(n, 16), 16);
    Behind("0X", Written(n, 16), 16);
    Behind("0b", Written(n, 2), 2);
    Behind("0B", Written(n, 2), 2);
    Behind("0o", Written(n, 8), 8);
    Behind("0O", Written(n, 8), 8);
    BehindZero(Written(n, 8));
  }

  lemma Behind(prefix: string, s: string, base: nat)
    requires |prefix| == 2 && prefix[0] == '0'
    requires match base
             case 16 => prefix[1] == 'x' || prefix[1] == 'X'
             case 2 => prefix[1] == 'b' || prefix[1] == 'B'
             case _ => base == 8 && (prefix[1] == 'o' || prefix[1] == 'O')
    ensures SeparatedDigits(s, base, true).Some? ==> Number(prefix + s) == Some(SeparatedDigits(s, base, true).value)
  {
    hide SeparatedDigits;
    assert (prefix + s)[2..] == s;
  }

  lemma BehindZero(s: string)
    requires s != "" && '0' <= s[0] <= '9'
    ensures SeparatedDigits(s, 8, true).Some? ==> Number("0" + s) == Some(SeparatedDigits(s, 8, true).value)
  {
    hide SeparatedDigits;
    assert ("0" + s)[1..] == s;
  }

  /** A sign before a number. */
  lemma SignedNumber(s: string, n: nat)
    requires Unsigned(s) == Some(n)
    ensures Number("+" + s) == Some(n) && Number("-" + s) == Some(0 - n)
  {
    hide Unsigned;
    assert ("+" + s)[1..] == s && ("-" + s)[1..] == s;
  }

  lemma {:induction false} WithoutJoins(a: string, b: string)
    ensures WithoutSeparators(a + b) == WithoutSeparators(a) + WithoutSeparators(b)
    decreases |b|
  {
    if b == "" {
      assert a + b == a;
    } else {
      WithoutJoins(a, b[..|b| - 1]);
      assert (a + b)[..|a + b| - 1] == a + b[..|b| - 1];
    }
  }

  /** An underscore between two digits does not count; one at the end, or next to another, is an error. */
  lemma UnderscoreIgnored(a: string, b: string, base: nat, prefixed: bool)
    requires a != "" && b != "" && (forall i | 0 <= i < |a| :: a[i] != '_') && (forall i | 0 <= i < |b| :: b[i] != '_')
    ensures SeparatedDigits(a + "_" + b, base, prefixed) == Digits(a + b, base)
    ensures SeparatedDigits(a + "_", base, prefixed) == SeparatedDigits(a + "__" + b, base, prefixed) == None
  {
    hide Digits, WithoutSeparators;
    NoSeparators(a);
    NoSeparators(b);
    WithoutJoins(a + "_", b);
    WithoutJoins(a, "_");
    LoneUnderscore();
    assert a + "" + b == a + b;
    Misplaced(a, b, prefixed);
    OneBetween(a, b, prefixed);
    hide Separated;
  }

  lemma LoneUnderscore()
    ensures WithoutSeparators("_") == ""
  {
    assert "_"[..0] == "";
  }

  lemma OneBetween(a: string, b: string, prefixed: bool)
    requires a != "" && b != "" && (forall i | 0 <= i < |a| :: a[i] != '_') && (forall i | 0 <= i < |b| :: b[i] != '_')
    ensures Separated(a + "_" + b, prefixed)
  {
    var s := a + "_" + b;
    forall i | 0 <= i < |s| && s[i] == '_' ensures (if i == 0 then prefixed else s[i - 1] != '_') && i + 1 < |s| {
      assert i == |a|;
    }
  }

  lemma Misplaced(a: string, b: string, prefixed: bool)
    ensures !Separated(a + "_", prefixed) && !Separated(a + "__" + b, prefixed)
  {
    assert (a + "_")[|a|] == '_';
    assert (a + "__" + b)[|a| + 1] == '_' && (a + "__" + b)[|a|] == '_';
  }

  // ---------------------------------------------------------------- components and paths

  predicate EndsWithQuote(s: string) {
    s != "" && s[|s| - 1] == '\''
  }

  /** A component is hardened by a quote; its number must fit below the hardened bit, or below 32 bits without. */
  function Component(s: string): Option<Uint32> {
    var c := TrimSpace(s);
    var hardened := EndsWithQuote(c);
    var number := Number(if hardened then TrimSpace(c[..|c| - 1]) else c);
    if number == None || number.value < 0 then None
    else if hardened then if number.value < 0x8000_0000 then Some(number.value + 0x8000_0000) else None
    else if number.value < 0x1_0000_0000 then Some(number.value)
    else None
  }

  ghost function Components(parts: seq<string>): Option<seq<Uint32>> {
    if parts == [] then Some([])
    else
      var init := Components(parts[..|parts| - 1]);
      var last := Component(parts[|parts| - 1]);
      if init == None || last == None then None else Some(init.value + [last.value])
  }

  /** The path a text stands for. */
  ghost function Parsed(path: string): Option<seq<Uint32>> {
    var parts := Split(path);
    var first := TrimSpace(parts[0]);
    if first == "" then None
    else if first == "m" then if |parts| == 1 then None else Components(parts[1..])
    else
      var rest := Components(parts);
      if rest == None then None else Some(DEFAULT_ROOT + rest.value)
  }

  function ComponentText(c: Uint32): string {
    if c >= 0x8000_0000 then Decimal(c - 0x8000_0000) + "'" else Decimal(c)
  }

  ghost function Formatted(path: seq<Uint32>): string {
    if path == [] then "m" else Formatted(path[..|path| - 1]) + "/" + ComponentText(path[|path| - 1])
  }

  lemma ComponentRoundTrip(c: Uint32)
    ensures Component(ComponentText(c)) == Some(c) && NoSlash(ComponentText(c))
  {
    hide Number, Decimal;
    var n := if c >= 0x8000_0000 then c - 0x8000_0000 else c;
    var s, t := Decimal(n), ComponentText(c);
    DecimalNumber(n);
    assert '0' <= s[0] <= '9' && '0' <= s[|s| - 1] <= '9';
    TrimKeeps(s);
    assert t[0] == s[0];
    TrimKeeps(t);
    if c >= 0x8000_0000 {
      assert t[..|t| - 1] == s;
    }
  }

  /** The text of a path splits into "m" and the components. */
  lemma {:induction false} FormattedSplits(path: seq<Uint32>)
    ensures var parts := Split(Formatted(path));
      parts[0] == "m" && |parts| == |path| + 1 && Components(parts[1..]) == Some(path)
    decreases |path|
  {
    hide *;
    FormattedIs(path);
    if path == [] {
      SplitM();
      assert ["m"][1..] == [];
      NoComponents();
    } else {
      var init, c := path[..|path| - 1], path[|path| - 1];
      FormattedSplits(init);
      ComponentRoundTrip(c);
      SplitLast(Formatted(init), ComponentText(c));
      var parts := Split(Formatted(init));
      assert (parts + [ComponentText(c)])[1..] == parts[1..] + [ComponentText(c)];
      ComponentsAdd(parts[1..], ComponentText(c));
      assert init + [c] == path;
    }
  }

  lemma FormattedIs(path: seq<Uint32>)
    ensures Formatted(path) ==
      if path == [] then "m" else Formatted(path[..|path| - 1]) + "/" + ComponentText(path[|path| - 1])
  {
  }

  lemma SplitM()
    ensures Split("m") == ["m"]
  {
    FirstSlashIs("m", 1);
  }

  lemma ComponentsAdd(parts: seq<string>, s: string)
    ensures Components(parts + [s]) ==
      if Components(parts) == None || Component(s) == None then None else Some(Components(parts).value + [Component(s).value])
  {
    hide Component;
    assert (parts + [s])[..|parts|] == parts;
  }

  /** A path is read back from its text exactly if it is not empty. */
  lemma RoundTrip(path: seq<Uint32>)
    ensures Parsed(Formatted(path)) == Some(path) <==> path != []
  {
    hide *;
    FormattedSplits(path);
    TrimM();
    ParsedIs(Formatted(path));
    assert [] + path == path;
  }

  lemma TrimM()
    ensures TrimSpace("m") == "m"
  {
    TrimKeeps("m");
  }

  /** The components of a path without the leading m. */
  ghost function Relative(path: seq<Uint32>): string
    requires path != []
  {
    if |path| == 1 then ComponentText(path[0]) else Relative(path[..|path| - 1]) + "/" + ComponentText(path[|path| - 1])
  }

  lemma {:induction false} RelativeSplits(path: seq<Uint32>)
    requires path != []
    ensures var parts := Split(Relative(path)); parts[0] == ComponentText(path[0]) && Components(parts) == Some(path)
    decreases |path|
  {
    hide *;
    RelativeIs(path);
    if |path| == 1 {
      SplitOne(ComponentText(path[0]), path[0]);
      NoComponents();
      assert [] + [ComponentText(path[0])] == [ComponentText(path[0])];
      ComponentsAdd([], ComponentText(path[0]));
      ComponentRoundTrip(path[0]);
      assert path == [] + [path[0]];
    } else {
      var init, c := path[..|path| - 1], path[|path| - 1];
      RelativeSplits(init);
      ComponentRoundTrip(c);
      SplitLast(Relative(init), ComponentText(c));
      ComponentsAdd(Split(Relative(init)), ComponentText(c));
      assert init + [c] == path;
    }
  }

  lemma RelativeIs(path: seq<Uint32>)
    requires path != []
    ensures Relative(path) ==
      if |path| == 1 then ComponentText(path[0]) else Relative(path[..|path| - 1]) + "/" + ComponentText(path[|path| - 1])
  {
  }

  lemma SplitOne(s: string, c: Uint32)
    requires s == ComponentText(c)
    ensures Split(s) == [s]
  {
    ComponentRoundTrip(c);
    hide ComponentText, Component;
    assert s[..|s|] == s;
    FirstSlashIs(s, |s|);
  }

  /** A path without the leading m continues the default root m/44'/60'/0'/0. */
  lemma RelativePath(path: seq<Uint32>)
    requires path != []
    ensures Parsed(Relative(path)) == Some([0x8000_002C, 0x8000_003C, 0x8000_0000, 0] + path)
    ensures Formatted(DEFAULT_ROOT) == "m/44'/60'/0'/0"
  {
    hide *;
    RelativeSplits(path);
    TextStarts(path[0]);
    RootText();
    RootIs();
    ParsedIs(Relative(path));
  }

  lemma TextStarts(c: Uint32)
    ensures TrimSpace(ComponentText(c)) != "" && TrimSpace(ComponentText(c)) != "m"
  {
    var n := if c >= 0x8000_0000 then c - 0x8000_0000 else c;
    var s, t := Decimal(n), ComponentText(c);
    assert '0' <= s[0] <= '9' && '0' <= s[|s| - 1] <= '9' && t[0] == s[0];
    hide Decimal, ComponentText;
    TrimKeeps(t);
  }

  lemma RootText()
    ensures Formatted(DEFAULT_ROOT) == "m/44'/60'/0'/0"
  {
    hide *;
    RootIs();
    RootParts();
    var one: seq<Uint32> := [0x8000_002C];
    var two: seq<Uint32> := [0x8000_002C, 0x8000_003C];
    var three: seq<Uint32> := [0x8000_002C, 0x8000_003C, 0x8000_0000];
    FormattedIs([]);
    FormattedOn([], 0x8000_002C, one);
    FormattedOn(one, 0x8000_003C, two);
    FormattedOn(two, 0x8000_0000, three);
    FormattedOn(three, 0, DEFAULT_ROOT);
  }

  lemma RootIs()
    ensures DEFAULT_ROOT == [0x8000_002C, 0x8000_003C, 0x8000_0000, 0]
  {
  }

  lemma RootParts()
    ensures ComponentText(0x8000_002C) == "44'" && ComponentText(0x8000_003C) == "60'" && ComponentText(0x8000_0000) == "0'"
    ensures ComponentText(0) == "0"
  {
    TwoDigits(44);
    TwoDigits(60);
    assert Decimal(0) == "0";
    hide Decimal;
  }

  lemma TwoDigits(n: nat)
    requires 10 <= n < 100
    ensures Decimal(n) == [DigitChar(n / 10), DigitChar(n % 10)]
  {
    assert Decimal(n / 10) == [DigitChar(n / 10)];
  }

  lemma FormattedOn(path: seq<Uint32>, c: Uint32, longer: seq<Uint32>)
    requires longer == path + [c]
    ensures Formatted(longer) == Formatted(path) + "/" + ComponentText(c)
  {
    hide ComponentText;
    assert longer[..|longer| - 1] == path;
  }

  lemma {:induction false} ComponentsCount(parts: seq<string>)
    ensures Components(parts).Some? ==> |Components(parts).value| == |parts|
    decreases |parts|
  {
    if parts != [] {
      ComponentsCount(parts[..|parts| - 1]);
    }
  }

  /** Whatever spelling a path was read from, its text is read as the same path. */
  lemma TextIsCanonical(s: string)
    ensures Parsed(s).Some? ==> Parsed(Formatted(Parsed(s).value)) == Parsed(s)
  {
    hide *;
    if Parsed(s).Some? {
      ParsedIs(s);
      RootIs();
      ComponentsCount(Split(s));
      ComponentsCount(Split(s)[1..]);
      RoundTrip(Parsed(s).value);
    }
  }

  // ---------------------------------------------------------------- the operations

  method ParseDerivationPath(path: string) returns (r: Option<seq<Uint32>>)
    ensures r == Parsed(path)
    ensures r.Some? ==> r.value != []
  {
    hide *;
    ParsedIs(path);
    var result: seq<Uint32> := [];
    var components := Split(path);
    var first := TrimSpace(components[0]);
    if first == "" {
      return None;
    } else if first == "m" {
      components := components[1..];
    } else {
      result := DEFAULT_ROOT;
    }
    if |components| == 0 {
      return None;
    }
    ghost var root := result;
    NoComponents();
    assert root + [] == root && components[..0] == [];
    for i := 0 to |components|
      invariant Components(components[..i]).Some? && result == root + Components(components[..i]).value
      invariant |Components(components[..i]).value| == i
    {
      var value := Component(components[i]);
      assert components[..i + 1] == components[..i] + [components[i]];
      ComponentsAdd(components[..i], components[i]);
      if value == None {
        FailsWhole(components, i + 1);
        return None;
      }
      result := result + [value.value];
    }
    assert components[..|components|] == components;
    return Some(result);
  }

  lemma NoComponents()
    ensures Components([]) == Some([])
  {
  }

  lemma ParsedIs(path: string)
    ensures var parts := Split(path);
      var first := TrimSpace(parts[0]);
      Parsed(path) ==
        if first == "" || (first == "m" && |parts| == 1) then None
        else
          var rest := Components(if first == "m" then parts[1..] else parts);
          if rest == None then None else Some((if first == "m" then [] else DEFAULT_ROOT) + rest.value)
  {
    var rest := Components(Split(path)[1..]);
    assert rest.Some? ==> [] + rest.value == rest.value;
  }

  lemma {:induction false} FailsWhole(parts: seq<string>, n: nat)
    requires n <= |parts| && Components(parts[..n]) == None
    ensures Components(parts) == None
    decreases |parts| - n
  {
    if n == |parts| {
      assert parts[..n] == parts;
    } else {
      assert parts[..n + 1][..n] == parts[..n];
      FailsWhole(parts, n + 1);
    }
  }

  method String(path: seq<Uint32>) returns (r: string)
    ensures r == Formatted(path)
  {
    r := "m";
    for i := 0 to |path|
      invariant r == Formatted(path[..i])
    {
      assert path[..i + 1][..i] == path[..i];
      var component, hardened := path[i], false;
      if component >= HARDENED {
        component, hardened := component - HARDENED, true;
      }
      r := r + "/" + Decimal(component);
      if hardened {
        r := r + "'";
      }
    }
    assert path[..|path|] == path;
  }
}
