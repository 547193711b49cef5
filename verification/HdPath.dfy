/** accounts/hd.go: derivation paths of hierarchical deterministic wallets, parsed from and printed as text. */
module HdPath {
  import opened Basics

  const HARDENED: nat := 0x8000_0000
  const MAX_UINT32: nat := 0xFFFF_FFFF

  type Index = x: nat | x <= 0xFFFF_FFFF

  /** The root path m/44'/60'/0'/0 that relative paths are appended to. */
  const DEFAULT_ROOT: seq<Index> := [0x8000_0000 + 44, 0x8000_0000 + 60, 0x8000_0000 + 0, 0]

  datatype Error = Ambiguous | Empty | Invalid(component: string) | OutOfRange(hardened: bool)

  datatype Result<T> = Ok(value: T) | Err(error: Error)

  // ---------- strings ----------

  /** White space as strings.TrimSpace knows it. */
  predicate IsSpace(c: char) {
    || '\t' <= c <= '\r' || c == ' ' || c == '\U{85}' || c == '\U{A0}' || c == '\U{1680}'
    || '\U{2000}' <= c <= '\U{200A}' || c == '\U{2028}' || c == '\U{2029}' || c == '\U{202F}'
    || c == '\U{205F}' || c == '\U{3000}'
  }

  function TrimLeft(s: string): string {
    if s != [] && IsSpace(s[0]) then TrimLeft(s[1..]) else s
  }

  function TrimRight(s: string): string {
    if s != [] && IsSpace(s[|s| - 1]) then TrimRight(s[..|s| - 1]) else s
  }

  function TrimSpace(s: string): string {
    TrimRight(TrimLeft(s))
  }

  lemma NothingToTrim(s: string)
    requires s == [] || (!IsSpace(s[0]) && !IsSpace(s[|s| - 1]))
    ensures TrimSpace(s) == s
  {}

  ghost predicate Blank(s: string) {
    forall i :: 0 <= i < |s| ==> IsSpace(s[i])
  }

  lemma {:induction false} TrimLeftBlank(blank: string, s: string)
    requires Blank(blank)
    ensures TrimLeft(blank + s) == TrimLeft(s)
  {
    if blank == [] {
      assert blank + s == s;
    } else {
      assert (blank + s)[1..] == blank[1..] + s;
      TrimLeftBlank(blank[1..], s);
    }
  }

  lemma {:induction false} TrimRightBlank(s: string, blank: string)
    requires Blank(blank)
    ensures TrimRight(s + blank) == TrimRight(s)
  {
    if blank == [] {
      assert s + blank == s;
    } else {
      assert (s + blank)[..|s + blank| - 1] == s + blank[..|blank| - 1];
      TrimRightBlank(s, blank[..|blank| - 1]);
    }
  }

  lemma {:induction false} TrimLeftKeepsEnd(s: string, blank: string)
    requires Blank(blank)
    ensures TrimLeft(s + blank) == if Blank(s) then [] else TrimLeft(s) + blank
    ensures Blank(s) ==> TrimLeft(s) == []
  {
    if s == [] {
      TrimLeftBlank(blank, []);
      assert blank + [] == s + blank;
    } else if IsSpace(s[0]) {
      assert (s + blank)[1..] == s[1..] + blank;
      assert Blank(s) <==> Blank(s[1..]);
      TrimLeftKeepsEnd(s[1..], blank);
    }
  }

  /** White space around a text is ignored. */
  lemma TrimPadded(before: string, s: string, after: string)
    requires Blank(before) && Blank(after)
    ensures TrimSpace(before + s + after) == TrimSpace(s)
  {
    assert before + s + after == before + (s + after);
    TrimLeftBlank(before, s + after);
    TrimLeftKeepsEnd(s, after);
    TrimRightBlank(TrimLeft(s), after);
  }

  /** strings.Split at every slash; there is always a first component. */
  function Split(s: string): (r: seq<string>)
    ensures r != []
  {
    if s == [] then [[]]
    else if s[0] == '/' then [[]] + Split(s[1..])
    else
      var rest := Split(s[1..]);
      [[s[0]] + rest[0]] + rest[1..]
  }

  lemma {:induction false} SplitFirst(a: string, b: string)
    requires '/' !in a
    ensures Split(a + ['/'] + b) == [a] + Split(b)
  {
    var s := a + ['/'] + b;
    if a == [] {
      assert s[1..] == b;
    } else {
      SplitFirst(a[1..], b);
      assert s[1..] == a[1..] + ['/'] + b;
      var rest := Split(s[1..]);
      assert rest[0] == a[1..] && rest[1..] == Split(b);
      assert [s[0]] + rest[0] == a;
    }
  }

  lemma {:induction false} SplitNone(a: string)
    requires '/' !in a
    ensures Split(a) == [a]
  {
    if a != [] {
      SplitNone(a[1..]);
      assert [a[0]] + a[1..] == a;
    }
  }

  // ---------- numbers ----------

  /** The value of a digit or letter; 36 for every other character. */
  function DigitOf(c: char): nat {
    if '0' <= c <= '9' then c as nat - '0' as nat
    else if 'a' <= c <= 'z' then c as nat - 'a' as nat + 10
    else if 'A' <= c <= 'Z' then c as nat - 'A' as nat + 10
    else 36
  }

  /** Digits of a base, with single underscores between them. `gap` says that an underscore may not follow and
      the number may not end here; `count` is the number of digits seen. */
  function Digits(s: string, base: nat, gap: bool, acc: nat, count: nat): Option<nat> {
    if s == [] then if gap || count == 0 then None else Some(acc)
    else if s[0] == '_' then if gap then None else Digits(s[1..], base, true, acc, count)
    else if DigitOf(s[0]) < base then Digits(s[1..], base, false, acc * base + DigitOf(s[0]), count + 1)
    else None
  }

  /** An unsigned number whose base is given by its prefix. */
  function Unsigned(s: string): Option<nat> {
    if s == [] || s[0] != '0' then Digits(s, 10, true, 0, 0)
    else if |s| == 1 then Some(0)
    else if s[1] in "bB" then Digits(s[2..], 2, false, 0, 0)
    else if s[1] in "oO" then Digits(s[2..], 8, false, 0, 0)
    else if s[1] in "xX" then Digits(s[2..], 16, false, 0, 0)
    else Digits(s[1..], 8, false, 0, 0)
  }

  /** big.Int.SetString with base 0. */
  function SetString(s: string): Option<int> {
    if s != [] && s[0] == '-' then
      var v := Unsigned(s[1..]);
      if v.Some? then Some(-(v.value as int)) else None
    else
      var v := Unsigned(if s != [] && s[0] == '+' then s[1..] else s);
      if v.Some? then Some(v.value) else None
  }

  function DigitChar(d: nat): (c: char)
    requires d < 36
    ensures DigitOf(c) == d && !IsSpace(c) && c != '\''
  {
    if d < 10 then ('0' as nat + d) as char else ('a' as nat + d - 10) as char
  }

  /** A number in decimal, as %d prints it. */
  function Decimal(n: nat): (s: string)
    ensures s != []
  {
    if n < 10 then [DigitChar(n)] else Decimal(n / 10) + [DigitChar(n % 10)]
  }

  /** Only digits, and no leading zero but for zero itself. */
  lemma {:induction false} DecimalDigits(n: nat)
    ensures forall i :: 0 <= i < |Decimal(n)| ==> '0' <= Decimal(n)[i] <= '9'
    ensures Decimal(n)[0] == '0' ==> n == 0
  {
    if n >= 10 {
      DecimalDigits(n / 10);
    }
  }

  /** The value of a string of digits on top of what came before it. */
  function Fold(s: string, base: nat, acc: nat): nat {
    if s == [] then acc else Fold(s[1..], base, acc * base + DigitOf(s[0]))
  }

  lemma {:induction false} FoldMore(s: string, base: nat, acc: nat, c: char)
    ensures Fold(s + [c], base, acc) == Fold(s, base, acc) * base + DigitOf(c)
  {
    if s != [] {
      assert (s + [c])[1..] == s[1..] + [c];
      FoldMore(s[1..], base, acc * base + DigitOf(s[0]), c);
    }
  }

  lemma {:induction false} FoldDecimal(n: nat)
    ensures Fold(Decimal(n), 10, 0) == n
  {
    if n >= 10 {
      FoldDecimal(n / 10);
      FoldMore(Decimal(n / 10), 10, 0, DigitChar(n % 10));
    }
  }

  lemma {:induction false} DigitsFold(s: string, base: nat, gap: bool, acc: nat, count: nat)
    requires base <= 36 && forall i :: 0 <= i < |s| ==> DigitOf(s[i]) < base
    requires s == [] ==> !gap && count > 0
    ensures Digits(s, base, gap, acc, count) == Some(Fold(s, base, acc))
  {
    if s != [] {
      DigitsFold(s[1..], base, false, acc * base + DigitOf(s[0]), count + 1);
    }
  }

  /** A number in another base. */
  function InBase(n: nat, base: nat): (s: string)
    requires 2 <= base <= 36
    ensures s != []
  {
    DividesDown(n, base);
    if n < base then [DigitChar(n)] else InBase(n / base, base) + [DigitChar(n % base)]
  }

  lemma DividesDown(n: nat, base: nat)
    requires base >= 2
    ensures n >= base ==> n / base < n
    ensures n == (n / base) * base + n % base
  {}

  lemma {:induction false} DigitsOfBase(n: nat, base: nat)
    requires 2 <= base <= 36
    ensures forall i :: 0 <= i < |InBase(n, base)| ==>
              DigitOf(InBase(n, base)[i]) < base && !IsSpace(InBase(n, base)[i]) && InBase(n, base)[i] != '\''
  {
    hide IsSpace, DigitOf, DigitChar;
    if n >= base {
      DividesDown(n, base);
      DigitsOfBase(n / base, base);
    }
  }

  lemma {:induction false} FoldInBase(n: nat, base: nat)
    requires 2 <= base <= 36
    ensures Fold(InBase(n, base), base, 0) == n
  {
    hide DigitOf, DigitChar;
    DividesDown(n, base);
    if n >= base {
      FoldInBase(n / base, base);
      FoldMore(InBase(n / base, base), base, 0, DigitChar(n % base));
    }
  }

  lemma DigitsInBase(n: nat, base: nat)
    requires 2 <= base <= 36
    ensures Digits(InBase(n, base), base, false, 0, 0) == Some(n)
  {
    DigitsOfBase(n, base);
    DigitsFold(InBase(n, base), base, false, 0, 0);
    FoldInBase(n, base);
  }

  /** The prefix of a number gives its base: binary, octal in two spellings, or hexadecimal. */
  lemma SetInBase(n: nat)
    ensures SetString("0b" + InBase(n, 2)) == SetString("0B" + InBase(n, 2)) == Some(n)
    ensures SetString("0o" + InBase(n, 8)) == SetString("0O" + InBase(n, 8)) == SetString("0" + InBase(n, 8)) == Some(n)
    ensures SetString("0x" + InBase(n, 16)) == SetString("0X" + InBase(n, 16)) == Some(n)
  {
    hide Digits, InBase;
    DigitsInBase(n, 2);
    DigitsInBase(n, 8);
    DigitsInBase(n, 16);
    Prefixed("0b", InBase(n, 2));
    Prefixed("0B", InBase(n, 2));
    Prefixed("0o", InBase(n, 8));
    Prefixed("0O", InBase(n, 8));
    Prefixed("0x", InBase(n, 16));
    Prefixed("0X", InBase(n, 16));
    DigitsOfBase(n, 8);
    assert ("0" + InBase(n, 8))[1..] == InBase(n, 8);
  }

  lemma Prefixed(prefix: string, s: string)
    requires |prefix| == 2
    ensures (prefix + s)[2..] == s
  {}

  /** A sign in front of a number that does not start with one. */
  lemma SetSigned(s: string)
    requires s != [] && s[0] !in "+-"
    ensures SetString("+" + s) == SetString(s)
    ensures SetString("-" + s) == if SetString(s).Some? then Some(-SetString(s).value) else None
  {
    assert ("+" + s)[1..] == s && ("-" + s)[1..] == s;
  }

  /** A printed number reads as itself. */
  lemma SetDecimal(n: nat)
    ensures SetString(Decimal(n)) == Some(n)
  {
    var s := Decimal(n);
    DecimalDigits(n);
    if n > 0 {
      DigitsFold(s, 10, true, 0, 0);
      FoldDecimal(n);
    }
  }

  // ---------- components ----------

  /** One component of a path, with or without the mark of a hardened index. */
  function Component(text: string): Result<Index> {
    var component := TrimSpace(text);
    var hardened := component != [] && component[|component| - 1] == '\'';
    var number := if hardened then TrimSpace(component[..|component| - 1]) else component;
    var value := if hardened then HARDENED else 0;
    var v := SetString(number);
    if v.None? then Err(Invalid(number))
    else if v.value < 0 || v.value > MAX_UINT32 - value then Err(OutOfRange(hardened))
    else Ok(value + v.value)
  }

  function PrintComponent(c: Index): string {
    if c >= HARDENED then Decimal(c - HARDENED) + ['\''] else Decimal(c)
  }

  /** A printed component reads as itself; indices from 2^31 on are printed as hardened. */
  lemma ComponentRoundTrip(c: Index)
    ensures Component(PrintComponent(c)) == Ok(c)
    ensures '/' !in PrintComponent(c)
  {
    hide TrimSpace, SetString, Decimal;
    var n := if c >= HARDENED then c - HARDENED else c;
    var s, t := Decimal(n), PrintComponent(c);
    DecimalDigits(n);
    SetDecimal(n);
    NothingToTrim(s);
    NothingToTrim(t);
    assert c >= HARDENED ==> t[..|t| - 1] == s;
  }

  /** A hardened index can also be written as the plain number. */
  lemma PlainHardened(n: nat)
    requires n < HARDENED
    ensures Component(Decimal(HARDENED + n)) == Component(Decimal(n) + ['\'']) == Ok(HARDENED + n)
  {
    hide TrimSpace, SetString, Decimal;
    ComponentRoundTrip(HARDENED + n);
    DecimalDigits(HARDENED + n);
    SetDecimal(HARDENED + n);
    NothingToTrim(Decimal(HARDENED + n));
  }

  /** An index can also be written in hexadecimal digits. */
  lemma HexComponent(c: Index)
    ensures Component("0x" + InBase(c, 16)) == Ok(c)
    ensures c < HARDENED ==> Component("0x" + InBase(c, 16) + ['\'']) == Ok(HARDENED + c)
  {
    hide TrimSpace, SetString, InBase;
    var s := "0x" + InBase(c, 16);
    SetInBase(c);
    DigitsOfBase(c, 16);
    NothingToTrim(s);
    NothingToTrim(s + ['\'']);
    assert (s + ['\''])[..|s|] == s;
  }

  // ---------- paths ----------

  /** The components of a path, or the first error. */
  function Components(texts: seq<string>): Result<seq<Index>> {
    if texts == [] then Ok([])
    else
      var before := Components(texts[..|texts| - 1]);
      if before.Err? then before
      else
        var last := Component(texts[|texts| - 1]);
        if last.Err? then Err(last.error) else Ok(before.value + [last.value])
  }

  function Parsed(path: string): Result<seq<Index>> {
    var texts := Split(path);
    var head := TrimSpace(texts[0]);
    if head == "" then Err(Ambiguous)
    else if head == "m" then
      if |texts| == 1 then Err(Empty) else Components(texts[1..])
    else
      var rest := Components(texts);
      if rest.Err? then rest else Ok(DEFAULT_ROOT + rest.value)
  }

  function Printed(path: seq<Index>): string {
    if path == [] then "m" else Printed(path[..|path| - 1]) + ['/'] + PrintComponent(path[|path| - 1])
  }

  /** ParseDerivationPath. The source's test for no components at all is unreachable: Split gives at least
      one. */
  method ParseDerivationPath(path: string) returns (r: Result<seq<Index>>)
    ensures r == Parsed(path)
  {
    hide TrimSpace, Split, Components, Component;
    var root: seq<Index> := [];
    var components := Split(path);
    if TrimSpace(components[0]) == "" {
      return Err(Ambiguous);
    } else if TrimSpace(components[0]) == "m" {
      components := components[1..];
    } else {
      root := DEFAULT_ROOT;
    }
    if |components| == 0 {
      return Err(Empty);
    }
    r := ParseComponents(root, components);
    assert forall value: seq<Index> :: [] + value == value;
  }

  /** The components are relative to the root and appended one by one. */
  method ParseComponents(root: seq<Index>, components: seq<string>) returns (r: Result<seq<Index>>)
    ensures r == if Components(components).Err? then Components(components) else Ok(root + Components(components).value)
  {
    hide Component;
    var result := root;
    for i := 0 to |components|
      invariant Components(components[..i]).Ok? && result == root + Components(components[..i]).value
    {
      assert components[..i + 1][..i] == components[..i];
      var value := Component(components[i]);
      if value.Err? {
        FirstError(components, i);
        return Err(value.error);
      }
      result := result + [value.value];
    }
    assert components[..|components|] == components;
    return Ok(result);
  }

  lemma {:induction false} FirstError(texts: seq<string>, i: nat)
    requires i < |texts| && Components(texts[..i]).Ok? && Component(texts[i]).Err?
    ensures Components(texts) == Err(Component(texts[i]).error)
  {
    if i < |texts| - 1 {
      var before := texts[..|texts| - 1];
      assert before[..i] == texts[..i];
      FirstError(before, i);
    }
  }

  /** DerivationPath.String. */
  method ToString(path: seq<Index>) returns (result: string)
    ensures result == Printed(path)
  {
    result := "m";
    for i := 0 to |path|
      invariant result == Printed(path[..i])
    {
      assert path[..i + 1][..i] == path[..i];
      var component: nat := path[i];
      var hardened := false;
      if component >= HARDENED {
        component := component - HARDENED;
        hardened := true;
      }
      ghost var before := result;
      result := result + ['/'] + Decimal(component);
      if hardened {
        assert before + ['/'] + Decimal(component) + ['\''] == before + ['/'] + (Decimal(component) + ['\'']);
        result := result + ['\''];
      }
    }
    assert path[..|path|] == path;
  }

  // ---------- the round trip ----------

  /** What follows the first component. */
  ghost function Tail(path: seq<Index>): string {
    if path == [] then "" else ['/'] + PrintComponent(path[0]) + Tail(path[1..])
  }

  lemma {:induction false} TailMore(path: seq<Index>, c: Index)
    ensures Tail(path + [c]) == Tail(path) + (['/'] + PrintComponent(c))
  {
    if path == [] {
      assert path + [c] == [c];
    } else {
      assert (path + [c])[1..] == path[1..] + [c];
      TailMore(path[1..], c);
    }
  }

  lemma {:induction false} PrintedIsTail(path: seq<Index>)
    ensures Printed(path) == "m" + Tail(path)
  {
    if path != [] {
      hide PrintComponent, Tail;
      var before := path[..|path| - 1];
      PrintedIsTail(before);
      TailMore(before, path[|path| - 1]);
      assert before + [path[|path| - 1]] == path;
      Regroup("m", Tail(before), ['/'], PrintComponent(path[|path| - 1]));
    }
  }

  lemma Regroup(a: string, b: string, c: string, d: string)
    ensures a + b + c + d == a + (b + (c + d))
  {}

  /** Splitting a printed path gives its printed components. */
  lemma {:induction false} SplitTail(a: string, path: seq<Index>)
    requires '/' !in a
    ensures var texts := Split(a + Tail(path));
            && |texts| == |path| + 1 && texts[0] == a
            && forall i :: 0 <= i < |path| ==> texts[i + 1] == PrintComponent(path[i])
    decreases path
  {
    hide PrintComponent, Split, Component;
    if path == [] {
      assert a + Tail(path) == a;
      SplitNone(a);
    } else {
      var rest := PrintComponent(path[0]) + Tail(path[1..]);
      assert a + Tail(path) == a + ['/'] + rest;
      SplitFirst(a, rest);
      ComponentRoundTrip(path[0]);
      SplitTail(PrintComponent(path[0]), path[1..]);
      var texts := Split(rest);
      forall i | 0 <= i < |path|
        ensures ([a] + texts)[i + 1] == PrintComponent(path[i])
      {
        assert ([a] + texts)[i + 1] == texts[i];
        assert i > 0 ==> texts[i] == PrintComponent(path[1..][i - 1]);
      }
    }
  }

  lemma {:induction false} ComponentsRoundTrip(texts: seq<string>, path: seq<Index>)
    requires |texts| == |path| && forall i :: 0 <= i < |path| ==> texts[i] == PrintComponent(path[i])
    ensures Components(texts) == Ok(path)
  {
    hide PrintComponent, Component;
    if path != [] {
      var last := |path| - 1;
      ComponentsRoundTrip(texts[..last], path[..last]);
      ComponentRoundTrip(path[last]);
      assert path[..last] + [path[last]] == path;
    }
  }

  /** A printed path is parsed as itself exactly if it is not empty. */
  lemma RoundTrip(path: seq<Index>)
    ensures Parsed(Printed(path)) == Ok(path) <==> path != []
  {
    PrintedIsTail(path);
    SplitTail("m", path);
    NothingToTrim("m");
    if path != [] {
      ComponentsRoundTrip(Split(Printed(path))[1..], path);
    }
  }

  /** A path without the leading m is relative to m/44'/60'/0'/0: it reads as the same text after an m does, below that
      root, and fails as that text fails. Without a first component it is ambiguous. */
  lemma RelativePath(text: string)
    ensures TrimSpace(Split(text)[0]) == "" ==> Parsed(text) == Err(Ambiguous)
    ensures TrimSpace(Split(text)[0]) !in ["", "m"] ==>
              Parsed(text) ==
                if Parsed("m/" + text).Err? then Parsed("m/" + text)
                else Ok([0x8000_002C, 0x8000_003C, 0x8000_0000, 0] + Parsed("m/" + text).value)
  {
    hide TrimSpace, Split, Components;
    NothingToTrim("m");
    SplitFirst("m", text);
    assert "m" + ['/'] + text == "m/" + text;
    assert ([['m']] + Split(text))[1..] == Split(text);
  }

  lemma {:induction false} ComponentsLength(texts: seq<string>)
    requires Components(texts).Ok?
    ensures |Components(texts).value| == |texts|
  {
    if texts != [] {
      ComponentsLength(texts[..|texts| - 1]);
    }
  }

  /** Printing what was read from any accepted text and reading it again gives the same path. */
  lemma Reparses(text: string)
    requires Parsed(text).Ok?
    ensures Parsed(Printed(Parsed(text).value)) == Parsed(text)
  {
    var texts := Split(text);
    if TrimSpace(texts[0]) == "m" {
      ComponentsLength(texts[1..]);
    }
    RoundTrip(Parsed(text).value);
  }

  /** Different paths are printed differently. */
  lemma PrintedInjective(p: seq<Index>, q: seq<Index>)
    requires Printed(p) == Printed(q)
    ensures p == q
  {
    RoundTrip(p);
    RoundTrip(q);
    if p == [] || q == [] {
      PrintedIsTail(p);
      PrintedIsTail(q);
      SplitTail("m", p);
      SplitTail("m", q);
    }
  }

  /** White space around a component is ignored. */
  lemma PaddedComponent(before: string, text: string, after: string)
    requires Blank(before) && Blank(after)
    ensures Component(before + text + after) == Component(text)
  {
    hide TrimSpace, SetString;
    TrimPadded(before, text, after);
  }
}
