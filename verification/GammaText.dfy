/** Gamma values as text: the common show function and the two parsers of the Beada and MPro drivers. */
module GammaText {
  import opened Words

  // ---- Digits --------------------------------------------------------------------------------------

  predicate IsDigit(c: char) { '0' <= c <= '9' }

  predicate AllDigits(s: string) { forall i :: 0 <= i < |s| ==> IsDigit(s[i]) }

  /** The kernel's isspace. */
  predicate IsSpace(c: char) {
    c == ' ' || '\t' <= c <= '\r' || c == '\U{00a0}'
  }

  function Value(c: char): nat { if IsDigit(c) then c as int - '0' as int else 0 }

  function Number(s: string): nat {
    if s == [] then 0 else 10 * Number(s[..|s| - 1]) + Value(s[|s| - 1])
  }

  /** The length of the longest run of digits at the front of s. */
  function DigitRun(s: string): (n: nat)
    ensures n <= |s|
  {
    if s == [] || !IsDigit(s[0]) then 0 else 1 + DigitRun(s[1..])
  }

  lemma {:induction false} DigitRunOf(digits: string, rest: string)
    requires AllDigits(digits) && (rest == [] || !IsDigit(rest[0]))
    ensures DigitRun(digits + rest) == |digits|
    decreases digits
  {
    if digits == [] {
      assert digits + rest == rest;
    } else {
      assert (digits + rest)[1..] == digits[1..] + rest;
      DigitRunOf(digits[1..], rest);
    }
  }

  function SkipSpaces(s: string): string {
    if s != [] && IsSpace(s[0]) then SkipSpaces(s[1..]) else s
  }

  /** The position of the first dot, or |s|. */
  function FirstDot(s: string): (n: nat)
    ensures n <= |s|
  {
    if s == [] || s[0] == '.' then 0 else 1 + FirstDot(s[1..])
  }

  lemma {:induction false} FirstDotIs(s: string, n: nat)
    requires n <= |s| && (n < |s| ==> s[n] == '.') && forall i :: 0 <= i < n ==> s[i] != '.'
    ensures FirstDot(s) == n
    decreases n
  {
    if n > 0 {
      FirstDotIs(s[1..], n - 1);
    }
  }

  // ---- The library functions -------------------------------------------------------------------------

  /** kstrtou32 in base 10: an optional plus sign, digits, an optional newline. */
  function Kstrtou32(s: string): Option<nat> {
    var t := if s != [] && s[0] == '+' then s[1..] else s;
    var n := DigitRun(t);
    if n == 0 || (t[n..] != "" && t[n..] != "\n") then None
    else if Number(t[..n]) >= 0x1_0000_0000 then None
    else Some(Number(t[..n]))
  }

  /** One %u of sscanf: leading space is skipped and the value wraps at 32 bits. */
  function ScanNumber(s: string): Option<(nat, string)> {
    var t := SkipSpaces(s);
    var n := DigitRun(t);
    if n == 0 then None else Some((Cut(Number(t[..n])), t[n..]))
  }

  // ---- gamma_show --------------------------------------------------------------------------------------

  function Digit(d: nat): char
    requires d < 10
  {
    ('0' as int + d) as char
  }

  function Decimal(n: nat): (s: string)
    ensures s != [] && AllDigits(s)
  {
    if n < 10 then [Digit(n)] else Decimal(n / 10) + [Digit(n % 10)]
  }

  /** "%u.%02u\n" */
  function Show(g: nat): string {
    Decimal(g / 100) + "." + [Digit(g % 100 / 10), Digit(g % 10)] + "\n"
  }

  lemma {:induction false} NumberOfDecimal(n: nat)
    ensures Number(Decimal(n)) == n
    decreases n
  {
    if n >= 10 {
      NumberOfDecimal(n / 10);
      assert Decimal(n)[..|Decimal(n)| - 1] == Decimal(n / 10);
    }
  }

  function Power(k: nat): nat { if k == 0 then 1 else 10 * Power(k - 1) }

  lemma {:induction false} DecimalLength(n: nat, k: nat)
    requires 0 < k
    ensures |Decimal(n)| <= k <==> n < Power(k)
    decreases n
  {
    if n < 10 {
      assert 1 <= Power(k - 1) by { PowerPositive(k - 1); }
    } else if k > 1 {
      DecimalLength(n / 10, k - 1);
    } else {
      assert Power(1) == 10 * Power(0);
    }
  }

  lemma {:induction false} PowerPositive(k: nat)
    ensures 1 <= Power(k)
  {
    if k > 0 {
      PowerPositive(k - 1);
    }
  }

  lemma TwoDigits(a: nat, b: nat)
    requires a < 10 && b < 10
    ensures AllDigits([Digit(a), Digit(b)]) && Number([Digit(a), Digit(b)]) == 10 * a + b
  {
    var first, s := [Digit(a)], [Digit(a), Digit(b)];
    assert s[..1] == first;
    assert first[..0] == [];
    assert Number(first) == 10 * Number([]) + a;
  }

  // ---- The Beada parser ------------------------------------------------------------------------------

  predicate Trimmable(c: char) { c == '\n' || c == ' ' }

  function Trimmed(s: string): (t: string)
    ensures |t| <= |s|
  {
    if s != [] && Trimmable(s[|s| - 1]) then Trimmed(s[..|s| - 1]) else s
  }

  function BeadaGamma(buf: string): Option<nat> {
    if |buf| == 0 || |buf| >= 16 then None else BeadaTrimmed(Trimmed(buf))
  }

  function BeadaTrimmed(t: string): Option<nat> {
    var dot := FirstDot(t);
    if dot == |t| then
      var whole := Kstrtou32(t);
      if whole.None? then None else Some(Cut(whole.value * 100))
    else BeadaParts(t[..dot], t[dot + 1..])
  }

  function BeadaParts(w: string, f: string): Option<nat> {
    if |w| >= 8 || |f| == 0 || |f| > 2 then None else BeadaValue(Kstrtou32(w), Kstrtou32(f), |f|)
  }

  function BeadaValue(whole: Option<nat>, frac: Option<nat>, digits: nat): Option<nat> {
    if whole.None? || frac.None? then None
    else Some(Cut(whole.value * 100 + if digits == 1 then frac.value * 10 else frac.value))
  }

  /** The loop at the start of parse_gamma_x100: cuts newlines and spaces off the end. */
  method TrimEnd(buf: string) returns (tmp: string)
    ensures tmp == Trimmed(buf)
  {
    tmp := buf;
    while |tmp| > 0 && (tmp[|tmp| - 1] == '\n' || tmp[|tmp| - 1] == ' ')
      invariant Trimmed(tmp) == Trimmed(buf)
    {
      tmp := tmp[..|tmp| - 1];
    }
  }

  /** parse_gamma_x100. */
  method ParseBeada(buf: string) returns (out: Option<nat>)
    ensures out == BeadaGamma(buf)
  {
    if |buf| == 0 || |buf| >= 16 {
      return None;
    }
    var tmp := TrimEnd(buf);
    var dot := FirstDot(tmp);
    if dot == |tmp| {
      var whole := Kstrtou32(tmp);
      if whole.None? {
        return None;
      }
      return Some(Cut(whole.value * 100));
    }
    var flen := |tmp| - dot - 1;
    if dot >= 8 || flen == 0 || flen > 2 {
      return None;
    }
    var whole := Kstrtou32(tmp[..dot]);
    if whole.None? {
      return None;
    }
    var frac := Kstrtou32(tmp[dot + 1..]);
    if frac.None? {
      return None;
    }
    var padded := if flen == 1 then frac.value * 10 else frac.value;
    return Some(Cut(whole.value * 100 + padded));
  }

  // ---- The MPro parser -------------------------------------------------------------------------------

  /** What sscanf makes of "%u.%u": the first number, and the second one if it gets that far. */
  function ScanGamma(buf: string): Option<(nat, Option<nat>)> {
    var first := ScanNumber(buf);
    if first.None? then None
    else
      var rest := first.value.1;
      if rest == [] || rest[0] != '.' then Some((first.value.0, None))
      else
        var second := ScanNumber(rest[1..]);
        Some((first.value.0, if second.None? then None else Some(second.value.0)))
  }

  lemma {:induction false} FirstDotBound(s: string, i: nat)
    requires i < |s| && s[i] == '.'
    ensures FirstDot(s) <= i
  {
    if i > 0 {
      FirstDotBound(s[1..], i - 1);
    }
  }

  lemma {:induction false} SkippedSpaces(s: string) returns (k: nat)
    ensures k <= |s| && SkipSpaces(s) == s[k..]
  {
    if s != [] && IsSpace(s[0]) {
      k := SkippedSpaces(s[1..]);
      assert s[1..][k..] == s[k + 1..];
      k := k + 1;
    } else {
      k := 0;
    }
  }

  /** A second number is only read behind a dot. */
  lemma ScannedDot(buf: string)
    requires ScanGamma(buf).Some? && ScanGamma(buf).value.1.Some?
    ensures FirstDot(buf) < |buf|
  {
    var k := SkippedSpaces(buf);
    var n := DigitRun(buf[k..]);
    assert buf[k..][n..][0] == buf[k + n];
    FirstDotBound(buf, k + n);
  }

  function MproGamma(buf: string): Option<nat> {
    var scan := ScanGamma(buf);
    var dot := FirstDot(buf);
    if scan.None? then None
    else
      var (whole, second) := scan.value;
      if second.None? then Some(Cut(whole * 100))
      else
        ScannedDot(buf);
        MproParts(whole, second.value, DigitRun(buf[dot + 1..]))
  }

  function MproParts(whole: nat, frac: nat, digits: nat): Option<nat> {
    if digits > 2 then None else Some(Cut(whole * 100 + if digits == 1 then Cut(frac * 10) else frac))
  }

  /** The loop of mpro_parse_gamma_x100: how many digits stand at p. */
  method CountDigits(buf: string, start: nat) returns (n: nat)
    requires start <= |buf|
    ensures n == DigitRun(buf[start..])
  {
    n := 0;
    var p := start;
    while p < |buf| && IsDigit(buf[p])
      invariant p == start + n <= |buf|
      invariant n + DigitRun(buf[p..]) == DigitRun(buf[start..])
    {
      assert buf[p..][1..] == buf[p + 1..];
      n := n + 1;
      p := p + 1;
    }
  }

  /** mpro_parse_gamma_x100. */
  method ParseMpro(buf: string) returns (out: Option<nat>)
    ensures out == MproGamma(buf)
  {
    var dot := FirstDot(buf);
    var scan := ScanGamma(buf);
    if scan.None? {
      return None;
    }
    if scan.value.1.Some? {
      ScannedDot(buf);
    }
    var (whole, second) := scan.value;
    var frac := if second.Some? then second.value else 0;
    if second.Some? && dot < |buf| {
      var fracDigits := CountDigits(buf, dot + 1);
      if fracDigits == 1 {
        frac := Cut(frac * 10);
      } else if fracDigits > 2 {
        return None;
      }
    }
    return Some(Cut(whole * 100 + frac));
  }

  // ---- Both parsers on the documented forms ----------------------------------------------------------

  /** Digits, perhaps a dot and one or two digits, perhaps a newline. */
  datatype Form = Form(whole: string, frac: string, newline: bool)

  predicate ValidForm(x: Form) {
    AllDigits(x.whole) && x.whole != [] && AllDigits(x.frac) && |x.frac| <= 2
  }

  function Core(x: Form): string { x.whole + if x.frac == [] then [] else "." + x.frac }

  function Text(x: Form): string { Core(x) + if x.newline then "\n" else "" }

  /** A hundred times the number that the form denotes. */
  function Meaning(x: Form): nat
    requires ValidForm(x)
  {
    Number(x.whole) * 100 + if |x.frac| == 1 then Number(x.frac) * 10 else Number(x.frac)
  }

  lemma TrimmedCore(x: Form)
    requires ValidForm(x)
    ensures Trimmed(Text(x)) == Core(x)
  {
    var core := Core(x);
    assert IsDigit(core[|core| - 1]);
    if x.newline {
      assert Text(x)[..|Text(x)| - 1] == core;
    } else {
      assert Text(x) == core;
    }
  }

  lemma KstrtouDigits(s: string)
    requires AllDigits(s) && s != []
    ensures Kstrtou32(s) == if Number(s) < 0x1_0000_0000 then Some(Number(s)) else None
  {
    assert IsDigit(s[0]);
    assert s + [] == s;
    DigitRunOf(s, []);
    assert s[..|s|] == s;
  }

  lemma {:induction false} NumberBelow(s: string)
    requires AllDigits(s)
    ensures Number(s) < Power(|s|)
  {
    if s != [] {
      NumberBelow(s[..|s| - 1]);
    }
  }

  lemma ShortNumber(s: string)
    requires AllDigits(s) && |s| <= 2
    ensures Number(s) < 100
  {
    NumberBelow(s);
    assert Power(0) == 1 && Power(1) == 10 * Power(0) && Power(2) == 10 * Power(1);
  }

  lemma DotOfCore(x: Form)
    requires ValidForm(x)
    ensures FirstDot(Core(x)) == |x.whole|
    ensures x.frac != [] ==> Core(x)[..|x.whole|] == x.whole && Core(x)[|x.whole| + 1..] == x.frac
  {
    var core := Core(x);
    forall i | 0 <= i < |x.whole| ensures core[i] != '.' {
      assert IsDigit(x.whole[i]);
    }
    FirstDotIs(core, |x.whole|);
  }

  /** What the Beada parser does on every documented form: three limits, and otherwise the value cut to 32 bits. */
  lemma BeadaReads(x: Form)
    requires ValidForm(x)
    ensures BeadaGamma(Text(x)) ==
            if |Text(x)| >= 16 || (x.frac != [] && |x.whole| >= 8) || Number(x.whole) >= 0x1_0000_0000 then None
            else Some(Cut(Meaning(x)))
  {
    TrimmedCore(x);
    BeadaReadsCore(x);
  }

  lemma BeadaReadsCore(x: Form)
    requires ValidForm(x)
    ensures BeadaTrimmed(Core(x)) ==
            if (x.frac != [] && |x.whole| >= 8) || Number(x.whole) >= 0x1_0000_0000 then None else Some(Cut(Meaning(x)))
  {
    DotOfCore(x);
    if x.frac != [] {
      BeadaReadsParts(x);
    } else {
      KstrtouDigits(x.whole);
      assert Core(x) == x.whole;
    }
  }

  lemma BeadaReadsParts(x: Form)
    requires ValidForm(x) && x.frac != []
    ensures BeadaParts(x.whole, x.frac) ==
            if |x.whole| >= 8 || Number(x.whole) >= 0x1_0000_0000 then None else Some(Cut(Meaning(x)))
  {
    KstrtouDigits(x.whole);
    KstrtouDigits(x.frac);
    ShortNumber(x.frac);
  }

  lemma ScanDigits(digits: string, rest: string)
    requires AllDigits(digits) && digits != [] && (rest == [] || !IsDigit(rest[0]))
    ensures ScanNumber(digits + rest) == Some((Cut(Number(digits)), rest))
  {
    assert IsDigit((digits + rest)[0]);
    DigitRunOf(digits, rest);
    assert (digits + rest)[..|digits|] == digits && (digits + rest)[|digits|..] == rest;
  }

  lemma CutTimes(n: nat, more: nat)
    ensures Cut(Cut(n) * 100 + more) == Cut(n * 100 + more)
  {
    var q := n / 0x1_0000_0000;
    CutIsMod(n);
    CutMultiple(Cut(n) * 100 + more, 100 * q);
  }

  /** The MPro parser takes anything behind it that does not go on with the number. */
  lemma MproIgnoresRest(x: Form, rest: string)
    requires ValidForm(x) && (rest == [] || (!IsDigit(rest[0]) && (x.frac == [] ==> rest[0] != '.')))
    ensures MproGamma(Core(x) + rest) == Some(Cut(Meaning(x)))
  {
    var s := Core(x) + rest;
    if x.frac == [] {
      assert s == x.whole + rest;
      ScanDigits(x.whole, rest);
      CutTimes(Number(x.whole), 0);
    } else {
      RestScanned(x, rest);
      MproReadsParts(x);
    }
  }

  lemma RestScanned(x: Form, rest: string)
    requires ValidForm(x) && x.frac != [] && (rest == [] || !IsDigit(rest[0]))
    ensures var s := Core(x) + rest;
            && ScanGamma(s) == Some((Cut(Number(x.whole)), Some(Cut(Number(x.frac)))))
            && FirstDot(s) < |s| && DigitRun(s[FirstDot(s) + 1..]) == |x.frac|
  {
    var s := Core(x) + rest;
    assert s == x.whole + ("." + (x.frac + rest)) && ("." + (x.frac + rest))[1..] == x.frac + rest;
    ScanDigits(x.whole, "." + (x.frac + rest));
    ScanDigits(x.frac, rest);
    forall i | 0 <= i < |x.whole| ensures s[i] != '.' { assert IsDigit(x.whole[i]); }
    FirstDotIs(s, |x.whole|);
    assert s[|x.whole| + 1..] == x.frac + rest;
    DigitRunOf(x.frac, rest);
  }

  /** So it accepts every documented form. */
  lemma MproReads(x: Form)
    requires ValidForm(x)
    ensures MproGamma(Text(x)) == Some(Cut(Meaning(x)))
  {
    MproIgnoresRest(x, if x.newline then "\n" else "");
  }

  lemma MproReadsParts(x: Form)
    requires ValidForm(x) && x.frac != []
    ensures MproParts(Cut(Number(x.whole)), Cut(Number(x.frac)), |x.frac|) == Some(Cut(Meaning(x)))
  {
    ShortNumber(x.frac);
    CutTimes(Number(x.whole), if |x.frac| == 1 then Number(x.frac) * 10 else Number(x.frac));
  }

  /** The two parsers agree on every documented form that the Beada parser accepts. */
  lemma ParsersAgree(x: Form)
    requires ValidForm(x)
    ensures BeadaGamma(Text(x)).Some? ==> BeadaGamma(Text(x)) == MproGamma(Text(x))
  {
    BeadaReads(x);
    MproReads(x);
  }

  lemma DottedDigits(w: string, f: string)
    requires AllDigits(w) && AllDigits(f) && w != [] && f != []
    ensures var s := w + "." + f;
            && FirstDot(s) == |w| < |s| && s[..|w|] == w && s[|w| + 1..] == f && s == w + ("." + f) && Trimmed(s) == s
  {
    var s := w + "." + f;
    forall i | 0 <= i < |w| ensures s[i] != '.' { assert IsDigit(w[i]); }
    FirstDotIs(s, |w|);
    assert s[|s| - 1] == f[|f| - 1] && IsDigit(f[|f| - 1]);
  }

  /** A third digit after the dot is refused by the MPro parser, and nothing else in such a text is. */
  lemma MproRefuses(w: string, f: string)
    requires AllDigits(w) && AllDigits(f) && w != [] && f != []
    ensures MproGamma(w + "." + f) == None <==> |f| > 2
  {
    var s := w + "." + f;
    DottedDigits(w, f);
    ScanDigits(w, "." + f);
    assert ("." + f)[1..] == f && f + [] == f;
    ScanDigits(f, []);
    DigitRunOf(f, []);
    assert ScanGamma(s) == Some((Cut(Number(w)), Some(Cut(Number(f)))));
  }

  /** The Beada parser refuses it too, and texts of 16 characters or with 8 digits before the dot. */
  lemma BeadaRefuses(w: string, f: string)
    requires AllDigits(w) && AllDigits(f) && w != [] && f != []
    ensures BeadaGamma(w + "." + f) == None <==> |f| > 2 || |w| >= 8 || |w| + 1 + |f| >= 16
  {
    DottedDigits(w, f);
    if |f| <= 2 && |w| < 8 {
      SmallWhole(w);
      ShortNumber(f);
      KstrtouDigits(w);
      KstrtouDigits(f);
    }
  }

  /** A sign after the dot separates them: one reads hundredths behind it, the other stops there. */
  lemma SignAfterDot(w: string, d: string, whole: nat, frac: nat)
    requires AllDigits(w) && 0 < |w| < 8 && AllDigits(d) && |d| == 1 && Number(w) == whole && Number(d) == frac
    ensures BeadaGamma(w + ".+" + d) == Some(whole * 100 + frac)
    ensures MproGamma(w + ".+" + d) == Some(whole * 100)
  {
    SmallWhole(w);
    ShortNumber(d);
    BeadaReadsSign(w, d, whole, frac);
    assert w + ".+" + d == w + (".+" + d);
    ScanStops(w, ".+" + d, whole);
  }

  lemma ScanStops(w: string, rest: string, whole: nat)
    requires AllDigits(w) && 0 < |w| && Number(w) == whole < 10_000_000
    requires |rest| >= 2 && rest[0] == '.' && rest[1] == '+'
    ensures MproGamma(w + rest) == Some(whole * 100)
  {
    assert ScanGamma(w + rest) == Some((whole, None)) by {
      ScanDigits(w, rest);
      assert SkipSpaces(rest[1..]) == rest[1..];
      assert ScanNumber(rest[1..]) == None;
    }
    WholeOnly(w + rest, whole);
  }

  lemma WholeOnly(buf: string, whole: nat)
    requires ScanGamma(buf) == Some((whole, None)) && whole < 10_000_000
    ensures MproGamma(buf) == Some(whole * 100)
  {}

  lemma {:induction false} PowerGrows(j: nat, k: nat)
    requires j <= k
    ensures Power(j) <= Power(k)
    decreases k
  {
    if j < k {
      PowerGrows(j, k - 1);
    }
  }

  lemma SignText(w: string, d: string)
    requires AllDigits(w) && 0 < |w| < 8 && AllDigits(d) && |d| == 1
    ensures BeadaGamma(w + ".+" + d) == BeadaParts(w, "+" + d)
  {
    var s := w + ".+" + d;
    assert s[|s| - 1] == d[0];
    forall i | 0 <= i < |w| ensures s[i] != '.' { assert IsDigit(w[i]); }
    FirstDotIs(s, |w|);
    assert s[..|w|] == w && s[|w| + 1..] == "+" + d;
    BeadaDotted(s, w, "+" + d);
  }

  lemma BeadaDotted(s: string, w: string, f: string)
    requires 0 < |s| < 16 && Trimmed(s) == s && FirstDot(s) == |w| < |s| && s[..|w|] == w && s[|w| + 1..] == f
    ensures BeadaGamma(s) == BeadaParts(w, f)
  {}

  lemma BeadaReadsSign(w: string, d: string, whole: nat, frac: nat)
    requires AllDigits(w) && 0 < |w| < 8 && AllDigits(d) && |d| == 1
    requires Number(w) == whole < 10_000_000 && Number(d) == frac < 100
    ensures BeadaGamma(w + ".+" + d) == Some(whole * 100 + frac)
  {
    var f := "+" + d;
    assert f[1..] == d;
    SignText(w, d);
    KstrtouDigits(w);
    KstrtouPlus(f);
    PartsOf(w, f, whole, frac);
  }

  lemma PartsOf(w: string, f: string, whole: nat, frac: nat)
    requires |w| < 8 && |f| == 2 && Kstrtou32(w) == Some(whole) && Kstrtou32(f) == Some(frac)
    requires whole < 10_000_000 && frac < 100
    ensures BeadaParts(w, f) == Some(whole * 100 + frac)
  {}

  lemma SmallWhole(w: string)
    requires AllDigits(w) && |w| < 8
    ensures Number(w) < 10_000_000
  {
    NumberBelow(w);
    PowerGrows(|w|, 7);
    PowerEight();
  }

  lemma KstrtouPlus(f: string)
    requires |f| > 1 && f[0] == '+' && AllDigits(f[1..])
    ensures Kstrtou32(f) == if Number(f[1..]) < 0x1_0000_0000 then Some(Number(f[1..])) else None
  {
    var d := f[1..];
    assert d + [] == d;
    DigitRunOf(d, []);
    assert d[..|d|] == d;
  }

  // ---- What may stand around a documented form ------------------------------------------------------

  predicate Padding(s: string) { forall i :: 0 <= i < |s| ==> s[i] == '\n' || s[i] == ' ' }

  lemma {:induction false} TrimmedPadding(core: string, tail: string)
    requires core != [] && IsDigit(core[|core| - 1]) && Padding(tail)
    ensures Trimmed(core + tail) == core
    decreases |tail|
  {
    if tail == [] {
      assert core + tail == core;
    } else {
      var s := core + tail;
      assert s[|s| - 1] == tail[|tail| - 1];
      assert s[..|s| - 1] == core + tail[..|tail| - 1];
      TrimmedPadding(core, tail[..|tail| - 1]);
    }
  }

  /** The Beada parser allows any newlines and spaces behind the number, in a text of less than 16 characters. */
  lemma BeadaPadded(x: Form, tail: string)
    requires ValidForm(x) && Padding(tail)
    ensures BeadaGamma(Core(x) + tail) ==
            if |Core(x)| + |tail| >= 16 || (x.frac != [] && |x.whole| >= 8) || Number(x.whole) >= 0x1_0000_0000
            then None else Some(Cut(Meaning(x)))
  {
    assert IsDigit(Core(x)[|Core(x)| - 1]);
    TrimmedPadding(Core(x), tail);
    BeadaReadsCore(x);
  }

  /** Space in front is skipped by the MPro parser and refused by the Beada parser. */
  lemma LeadingSpace(c: char, x: Form)
    requires ValidForm(x) && IsSpace(c)
    ensures MproGamma([c] + Text(x)) == MproGamma(Text(x))
    ensures BeadaGamma([c] + Text(x)) == None
  {
    var s := [c] + Text(x);
    assert s[1..] == Text(x);
    SpaceSkipped(s);
    SpacedCore(c, x);
  }

  lemma SpaceSkipped(s: string)
    requires s != [] && IsSpace(s[0])
    ensures MproGamma(s) == MproGamma(s[1..])
  {
    assert ScanGamma(s) == ScanGamma(s[1..]);
    if ScanGamma(s).Some? && ScanGamma(s).value.1.Some? {
      ScannedDot(s[1..]);
      assert s[FirstDot(s) + 1..] == s[1..][FirstDot(s[1..]) + 1..];
    }
  }

  lemma NotANumber(s: string)
    requires s != [] && !IsDigit(s[0]) && s[0] != '+'
    ensures Kstrtou32(s) == None
  {}

  lemma NoNumberInFront(t: string)
    requires t != [] && !IsDigit(t[0]) && t[0] != '+' && t[0] != '.'
    ensures BeadaTrimmed(t) == None
  {
    var dot := FirstDot(t);
    if dot == |t| {
      NotANumber(t);
    } else {
      NotANumber(t[..dot]);
    }
  }

  lemma SpacedCore(c: char, x: Form)
    requires ValidForm(x) && IsSpace(c)
    ensures BeadaGamma([c] + Text(x)) == None
  {
    var core, tail := [c] + Core(x), if x.newline then "\n" else "";
    assert core[|core| - 1] == Core(x)[|Core(x)| - 1] && IsDigit(core[|core| - 1]);
    assert [c] + Text(x) == core + tail;
    TrimmedPadding(core, tail);
    NoNumberInFront(core);
  }

  // ---- Round trips -----------------------------------------------------------------------------------

  function Shown(g: nat): Form { Form(Decimal(g / 100), [Digit(g % 100 / 10), Digit(g % 10)], true) }

  lemma ShownMeans(g: nat)
    ensures ValidForm(Shown(g)) && Text(Shown(g)) == Show(g) && Meaning(Shown(g)) == g
  {
    TwoDigits(g % 100 / 10, g % 10);
    NumberOfDecimal(g / 100);
    assert g % 100 == 10 * (g % 100 / 10) + g % 10;
  }

  /** Every u32 survives show and the MPro parser. */
  lemma MproRoundTrip(g: nat)
    requires g < 0x1_0000_0000
    ensures MproGamma(Show(g)) == Some(g)
  {
    ShownMeans(g);
    MproReads(Shown(g));
  }

  /** The Beada parser reads back what show printed exactly below 10^9, and refuses it from there on. */
  lemma BeadaRoundTrip(g: nat)
    requires g < 0x1_0000_0000
    ensures BeadaGamma(Show(g)) == if g < 1_000_000_000 then Some(g) else None
  {
    ShownMeans(g);
    BeadaReads(Shown(g));
    DecimalLength(g / 100, 7);
    DecimalLength(g / 100, 10);
    NumberOfDecimal(g / 100);
    PowerEight();
    PowerGrows(8, 10);
  }

  /** Without a dot both parsers take any u32, but the result is right only up to 42949672; beyond it wraps. */
  lemma WholeExact(n: nat)
    requires n < 0x1_0000_0000
    ensures BeadaGamma(Decimal(n)) == MproGamma(Decimal(n)) == Some(Cut(n * 100))
    ensures BeadaGamma(Decimal(n)) == Some(n * 100) <==> n <= 42949672
  {
    BareForm(n);
    BeadaReads(Bare(n));
    MproReads(Bare(n));
    CutExact(n * 100);
  }

  function Bare(n: nat): Form { Form(Decimal(n), [], false) }

  lemma BareForm(n: nat)
    requires n < 0x1_0000_0000
    ensures ValidForm(Bare(n)) && Text(Bare(n)) == Decimal(n) && |Decimal(n)| <= 10
    ensures Number(Bare(n).whole) == n && Meaning(Bare(n)) == n * 100
  {
    assert Text(Bare(n)) == Decimal(n);
    DecimalLength(n, 10);
    NumberOfDecimal(n);
    PowerTen();
  }

  lemma PowerTen()
    ensures Power(10) == 10_000_000_000
  {
    PowerEight();
    assert Power(10) == 100 * Power(8);
  }

  lemma PowerEight()
    ensures Power(7) == 10_000_000 && Power(8) == 100_000_000
  {
    assert Power(3) == 1000;
    assert Power(7) == 10000 * Power(3);
  }
}
