/** `parseNormaliser` of `file.go`, with the string library it leans on. */
module Normaliser {
  import opened Prelude
  import opened StorageKeys

  datatype Kind = NoNormaliser | Digits | Lowercase | Trim | IpSubnet(v4: int, v6: int)

  predicate IsSpace(c: char) {
    c in " \t\n\r\U{0B}\U{0C}\U{85}\U{A0}"
  }

  function TrimLeft(s: string): string {
    if s != [] && IsSpace(s[0]) then TrimLeft(s[1..]) else s
  }

  function TrimRight(s: string): string {
    if s != [] && IsSpace(s[|s| - 1]) then TrimRight(s[..|s| - 1]) else s
  }

  function TrimSpace(s: string): string {
    TrimRight(TrimLeft(s))
  }

  /** Head, tail and whether the separator was there. */
  function Cut(s: string, sep: char): (string, string, bool) {
    var i := IndexFrom(s, sep, 0);
    if i == |s| then (s, "", false) else (s[..i], s[i + 1..], true)
  }

  function Split(s: string, sep: char): (parts: seq<string>)
    ensures |parts| >= 1
    decreases |s|
  {
    var (head, tail, found) := Cut(s, sep);
    if found then [head] + Split(tail, sep) else [s]
  }

  predicate IsDigit(c: char) {
    '0' <= c <= '9'
  }

  predicate AllDigits(s: string) {
    s != [] && forall i :: 0 <= i < |s| ==> IsDigit(s[i])
  }

  function Magnitude(s: string): (n: nat)
    requires forall i :: 0 <= i < |s| ==> IsDigit(s[i])
  {
    if s == [] then 0
    else
      assert IsDigit(s[|s| - 1]);
      10 * Magnitude(s[..|s| - 1]) + (s[|s| - 1] as int - '0' as int)
  }

  /** A decimal integer with an optional sign. */
  function Atoi(s: string): Outcome<int> {
    var body := if s != [] && (s[0] == '+' || s[0] == '-') then s[1..] else s;
    if !AllDigits(body) then Err
    else
      var n: int := Magnitude(body);
      Ok(if s[0] == '-' then -n else n)
  }

  function ParsePrefixes(arg: string): Outcome<(int, int)> {
    var parts := Split(arg, ',');
    if |parts| > 2 then Err
    else
      var v4 := Atoi(TrimSpace(parts[0]));
      var v6 := if |parts| == 2 then Atoi(TrimSpace(parts[1])) else Ok(64);
      if v4.Err? || v6.Err? then Err else Ok((v4.value, v6.value))
  }

  function Parse(text: string): (r: Outcome<Kind>)
    ensures r.Ok? && r.value.IpSubnet? ==> 0 <= r.value.v4 <= 32 && 0 <= r.value.v6 <= 128
  {
    var (base, arg, hasArg) := Cut(TrimSpace(text), '/');
    if base == "ipsubnet" then
      var prefixes := if hasArg then ParsePrefixes(arg) else Ok((24, 64));
      if prefixes.Err? then Err
      else
        var (v4, v6) := prefixes.value;
        if v4 < 0 || v4 > 32 || v6 < 0 || v6 > 128 then Err else Ok(IpSubnet(v4, v6))
    else if hasArg then Err
    else if base == "" || base == "none" then Ok(NoNormaliser)
    else if base == "digits" then Ok(Digits)
    else if base == "lower" then Ok(Lowercase)
    else if base == "trim" then Ok(Trim)
    else Err
  }

  /** The names without an argument: each is accepted as it stands, up to surrounding space, and nothing else is. */
  lemma ParseNames(text: string)
    ensures
      var name := TrimSpace(text);
      && (Parse(text) == Ok(NoNormaliser) <==> name == "" || name == "none")
      && (Parse(text) == Ok(Digits) <==> name == "digits")
      && (Parse(text) == Ok(Lowercase) <==> name == "lower")
      && (Parse(text) == Ok(Trim) <==> name == "trim")
      && (Parse(text).Ok? && Parse(text).value.IpSubnet? ==> name == "ipsubnet" || HasPrefix(name, "ipsubnet/"))
      && (name == "ipsubnet" ==> Parse(text) == Ok(IpSubnet(24, 64)))
  {
    var name := TrimSpace(text);
    hide TrimSpace, ParsePrefixes;
    var i := IndexFrom(name, '/', 0);
    if i == |name| {
      assert Cut(name, '/') == (name, "", false);
    } else {
      assert name[i] == '/';
      assert name[..i] + "/" == name[..i + 1];
      assert '/' !in "none" && '/' !in "digits" && '/' !in "lower" && '/' !in "trim" && '/' !in "ipsubnet";
    }
  }

  predicate HasPrefix(s: string, t: string) {
    |t| <= |s| && s[..|t|] == t
  }

  predicate AllSpace(s: string) {
    forall i :: 0 <= i < |s| ==> IsSpace(s[i])
  }

  /** A string that trimming leaves alone. */
  predicate Trimmed(s: string) {
    s == "" || (!IsSpace(s[0]) && !IsSpace(s[|s| - 1]))
  }

  lemma {:induction false} TrimLeftSpace(pad: string, s: string)
    requires AllSpace(pad) && (s == "" || !IsSpace(s[0]))
    ensures TrimLeft(pad + s) == s
  {
    if pad == "" {
      assert pad + s == s;
    } else {
      assert (pad + s)[0] == pad[0] && (pad + s)[1..] == pad[1..] + s;
      TrimLeftSpace(pad[1..], s);
    }
  }

  lemma {:induction false} TrimRightSpace(s: string, pad: string)
    requires AllSpace(pad) && (s == "" || !IsSpace(s[|s| - 1]))
    ensures TrimRight(s + pad) == s
  {
    if pad == "" {
      assert s + pad == s;
    } else {
      var n := |pad| - 1;
      assert (s + pad)[|s + pad| - 1] == pad[n] && (s + pad)[..|s + pad| - 1] == s + pad[..n];
      TrimRightSpace(s, pad[..n]);
    }
  }

  /** Trimming takes the space around a string, all of it and nothing else. */
  lemma TrimMeaning(left: string, s: string, right: string)
    requires AllSpace(left) && AllSpace(right) && Trimmed(s)
    ensures TrimSpace(left + s + right) == s
  {
    if s == "" {
      assert left + s + right == (left + right) + "";
      TrimLeftSpace(left + right, "");
    } else {
      assert left + s + right == left + (s + right);
      TrimLeftSpace(left, s + right);
      TrimRightSpace(s, right);
    }
  }

  lemma SpaceIs()
    ensures forall c :: IsSpace(c) <==>
                        c == ' ' || '\t' <= c <= '\r' || c == '\U{85}' || c == '\U{A0}'
  {
  }

  // ---------------------------------------------------------------- the documented notation

  /** Decimal notation without leading zeros. */
  function Itoa(n: nat): (s: string)
    ensures AllDigits(s) && Magnitude(s) == n
  {
    if n < 10 then
      var s := [('0' as int + n) as char];
      assert s[..0] == [];
      s
    else
      var init, last := Itoa(n / 10), ('0' as int + n % 10) as char;
      assert (init + [last])[..|init|] == init;
      init + [last]
  }

  lemma TrimDigits(s: string)
    requires AllDigits(s)
    ensures TrimSpace(s) == s && Atoi(s) == Ok(Magnitude(s))
  {
    assert !IsSpace(s[0]) && !IsSpace(s[|s| - 1]);
  }

  lemma CutAt(head: string, sep: char, tail: string)
    requires sep !in head
    ensures Cut(head + [sep] + tail, sep) == (head, tail, true)
  {
    var s := head + [sep] + tail;
    assert s[|head|] == sep;
    assert forall m :: 0 <= m < |head| ==> s[m] == head[m];
    assert IndexFrom(s, sep, 0) == |head|;
    assert s[..|head|] == head && s[|head| + 1..] == tail;
  }

  lemma NotCut(s: string, sep: char)
    requires sep !in s
    ensures Cut(s, sep) == (s, "", false) && Split(s, sep) == [s]
  {
    assert IndexFrom(s, sep, 0) == |s|;
  }

  lemma DigitsHaveNo(s: string, c: char)
    requires AllDigits(s) && !IsDigit(c)
    ensures c !in s
  {
  }

  lemma TrimSubnet(arg: string)
    requires arg != [] && !IsSpace(arg[|arg| - 1])
    ensures TrimSpace("ipsubnet" + ['/'] + arg) == "ipsubnet" + ['/'] + arg
  {
    var s := "ipsubnet" + ['/'] + arg;
    assert s[0] == 'i' && s[|s| - 1] == arg[|arg| - 1];
  }

  /** What follows "ipsubnet/" is read as prefix lengths. */
  lemma ParseSubnet(arg: string)
    requires arg != [] && !IsSpace(arg[|arg| - 1])
    ensures
      var p := ParsePrefixes(arg);
      Parse("ipsubnet" + ['/'] + arg) ==
      if p.Ok? && 0 <= p.value.0 <= 32 && 0 <= p.value.1 <= 128 then Ok(IpSubnet(p.value.0, p.value.1)) else Err
  {
    TrimSubnet(arg);
    hide TrimSpace, ParsePrefixes;
    assert '/' !in "ipsubnet";
    CutAt("ipsubnet", '/', arg);
  }

  /** "ipsubnet/N" sets the IPv4 prefix and leaves IPv6 at 64; it is accepted exactly when N is a prefix length. */
  lemma ParseOnePrefix(n: nat)
    ensures Parse("ipsubnet" + ['/'] + Itoa(n)) == if n <= 32 then Ok(IpSubnet(n, 64)) else Err
  {
    hide Itoa, Parse;
    var arg := Itoa(n);
    DigitsHaveNo(arg, ',');
    NotCut(arg, ',');
    TrimDigits(arg);
    hide TrimSpace, Atoi, Split;
    assert ParsePrefixes(arg) == Ok((n as int, 64));
    ParseSubnet(arg);
  }

  lemma SplitInTwo(left: string, right: string, sep: char)
    requires sep !in left && sep !in right
    ensures Split(left + [sep] + right, sep) == [left, right]
  {
    CutAt(left, sep, right);
    NotCut(right, sep);
  }

  /** "ipsubnet/N,M" sets both. */
  lemma ParseTwoPrefixes(n: nat, m: nat)
    ensures Parse("ipsubnet" + ['/'] + (Itoa(n) + [','] + Itoa(m))) ==
            if n <= 32 && m <= 128 then Ok(IpSubnet(n, m)) else Err
  {
    hide Itoa, Parse, Magnitude;
    var left, right := Itoa(n), Itoa(m);
    var arg := left + [','] + right;
    DigitsHaveNo(left, ',');
    DigitsHaveNo(right, ',');
    SplitInTwo(left, right, ',');
    TrimDigits(left);
    TrimDigits(right);
    hide TrimSpace, Atoi, Split;
    assert ParsePrefixes(arg) == Ok((n as int, m as int));
    assert arg[|arg| - 1] == right[|right| - 1];
    ParseSubnet(arg);
  }

  /** A sign is read, and a sign alone or twice is not a number. */
  lemma AtoiSigned(n: nat)
    ensures Atoi(['-'] + Itoa(n)) == Ok(-(n as int)) && Atoi(['+'] + Itoa(n)) == Ok(n as int) && Atoi(Itoa(n)) == Ok(n as int)
    ensures Atoi("") == Err && Atoi("-") == Err && Atoi(['-', '-'] + Itoa(n)) == Err
  {
    hide Itoa;
    TrimDigits(Itoa(n));
    assert (['-'] + Itoa(n))[1..] == Itoa(n) && (['+'] + Itoa(n))[1..] == Itoa(n);
    var twice := ['-', '-'] + Itoa(n);
    assert twice[1..][0] == '-';
  }

  /** Space around a prefix length does not matter, a third one is one too many. */
  lemma PrefixesPadded(a: string, n: nat, b: string, c: string, m: nat, d: string, rest: string)
    requires AllSpace(a) && AllSpace(b) && AllSpace(c) && AllSpace(d)
    ensures
      var first, second := a + Itoa(n) + b, c + Itoa(m) + d;
      && ParsePrefixes(first) == Ok((n as int, 64))
      && ParsePrefixes(first + [','] + second) == Ok((n as int, m as int))
      && ParsePrefixes(first + [','] + (second + [','] + rest)) == Err
  {
    hide Itoa, Magnitude;
    var first, second := a + Itoa(n) + b, c + Itoa(m) + d;
    PaddedNumber(a, n, b);
    PaddedNumber(c, m, d);
    NotCut(first, ',');
    SplitInTwo(first, second, ',');
    CutAt(first, ',', second + [','] + rest);
    CutAt(second, ',', rest);
    SplitStep(first, second + [','] + rest, ',');
    SplitStep(second, rest, ',');
    hide Split, TrimSpace, Atoi;
  }

  lemma SplitStep(head: string, tail: string, sep: char)
    requires sep !in head
    ensures Split(head + [sep] + tail, sep) == [head] + Split(tail, sep)
  {
    CutAt(head, sep, tail);
  }

  lemma PaddedNumber(a: string, n: nat, b: string)
    requires AllSpace(a) && AllSpace(b)
    ensures
      var s := a + Itoa(n) + b;
      ',' !in s && Atoi(TrimSpace(s)) == Ok(n as int)
  {
    hide Itoa;
    var digits := Itoa(n);
    TrimDigits(digits);
    DigitsHaveNo(digits, ',');
    assert IsDigit(digits[0]) && IsDigit(digits[|digits| - 1]);
    TrimMeaning(a, digits, b);
    assert !IsSpace(',');
  }
}
