/** The target list character by character: what separates tokens, which tokens are refused, how targets compare. */
module ArchLaws {
  import opened Wrappers
  import opened Arithmetic
  import opened ArchTokens
  import opened ArchList
  import opened ArchArgs

  // ----- separators -----

  /** Semicolons, commas and ASCII blanks separate; what tokens are made of does not. */
  lemma SeparatorLaw(c: char)
    ensures c in [';', ',', ' ', '\t', '\n', '\r'] ==> IsSeparator(c)
    ensures '0' <= c <= '9' || 'a' <= c <= 'z' || 'A' <= c <= 'Z' || c in ['.', '_', '+', '-', '"'] ==> !IsSeparator(c)
  {}

  /** A list splits at its first separator, and nowhere when it has none. */
  lemma SplitLaw(first: string, c: char, rest: string)
    requires forall j :: 0 <= j < |first| ==> !IsSeparator(first[j])
    ensures Pieces(first) == [first]
    ensures IsSeparator(c) ==> Pieces(first + [c] + rest) == [first] + Pieces(rest)
  {
    assert NextSeparator(first) == |first|;
    var raw := first + [c] + rest;
    if IsSeparator(c) {
      assert raw[|first|] == c && forall j :: 0 <= j < |first| ==> raw[j] == first[j];
      assert NextSeparator(raw) == |first|;
      assert raw[..|first|] == first && raw[|first| + 1..] == rest;
    }
  }

  /** The tokens are the pieces that are not empty. */
  lemma TokensLaw(raw: string, t: string)
    ensures t in Tokens(raw) <==> t != "" && t in Pieces(raw)
  {}

  /** The targets that are built. */
  lemma SupportedLaw(sm: string)
    ensures IsSupported(sm) <==> sm in ["70", "80", "86", "89", "90", "100", "120"]
  {}

  /** A build for 7.0 names nothing else. */
  lemma ValidSetLaw(specs: seq<SmSpec>)
    ensures ValidSet(specs) <==> |specs| == 1 || forall i :: 0 <= i < |specs| ==> specs[i].sm != "70"
  {}

  // ----- which tokens are refused -----

  predicate Digits(s: string) {
    forall i :: 0 <= i < |s| ==> '0' <= s[i] <= '9'
  }

  /** All digits, or digits but for one dot. */
  predicate Numeric(s: string) {
    Digits(s) || exists k :: 0 <= k < |s| && s[k] == '.' && Digits(s[..k]) && Digits(s[k + 1..])
  }

  /** A capability is read exactly from digits with at most one dot; the dot is dropped and a lone digit gets a
      zero. */
  lemma CapabilityLaw(s: string)
    ensures Capability(s).Some? <==> Numeric(s)
    ensures Digits(s) ==> Capability(s) == Some(if |s| == 1 then s + "0" else s)
    ensures forall k :: 0 <= k < |s| && s[k] == '.' && Digits(s[..k]) && Digits(s[k + 1..]) ==>
      Capability(s) == Some(s[..k] + s[k + 1..])
  {
    var dot := FirstDot(s);
    forall k | 0 <= k < |s| && s[k] == '.' && Digits(s[..k]) && Digits(s[k + 1..])
      ensures k == dot && Capability(s) == Some(s[..k] + s[k + 1..])
    {
      DotThere(s, k, dot);
    }
  }

  lemma DotThere(s: string, k: nat, dot: nat)
    requires k < |s| && s[k] == '.' && Digits(s[..k]) && dot == FirstDot(s)
    ensures k == dot
  {
    assert forall j :: 0 <= j < k ==> s[j] == s[..k][j];
  }

  /** A token in quotes and blanks is refused exactly when what its prefix and suffix leave is not numeric. */
  lemma RefusedLaw(raw: string, prefix: string, body: string, gap: string, suffix: string,
                   lead: string, open: string, close: string, trail: string)
    requires prefix in ["", "sm_", "compute_"] && suffix in ["", "+PTX", "+ptx"] && (suffix == "" ==> gap == "")
    requires body != "" && Plain(body[0]) && Plain(body[|body| - 1]) && Dropped(gap, Blanks)
    requires prefix == "" ==> !("sm_" <= body) && !("compute_" <= body)
    requires Wrapped(raw, prefix + body + gap + suffix, lead, open, close, trail)
    requires forall j :: 0 <= j < |body| ==> body[j] != '+'
    ensures ParseToken(raw).Some? <==> Numeric(body)
    ensures ParseToken(raw).Some? ==>
      Some(ParseToken(raw).value.sm) == Capability(body) && (ParseToken(raw).value.ptx <==> suffix != "")
  {
    var token := prefix + body + gap + suffix;
    assert token[0] == if prefix == "" then body[0] else prefix[0];
    assert token[|token| - 1] == if suffix == "" then body[|body| - 1] else suffix[|suffix| - 1];
    Unwrapped(raw, token, lead, open, close, trail);
    ReadBody(prefix, body, gap, suffix);
    CapabilityLaw(body);
  }

  lemma ReadBody(prefix: string, body: string, gap: string, suffix: string)
    requires prefix in ["", "sm_", "compute_"] && suffix in ["", "+PTX", "+ptx"] && (suffix == "" ==> gap == "")
    requires body != "" && Plain(body[|body| - 1]) && Dropped(gap, Blanks)
    requires prefix == "" ==> !("sm_" <= body) && !("compute_" <= body)
    requires forall j :: 0 <= j < |body| ==> body[j] != '+'
    ensures ReadTrimmed(prefix + body + gap + suffix) ==
      match Capability(body) case None => None case Some(sm) => Some(SmSpec(sm, suffix != ""))
  {
    StemOf(prefix + body, gap, suffix, body);
    BodyOf(prefix, body);
  }

  lemma StemOf(stem: string, gap: string, suffix: string, body: string)
    requires body != "" && |body| <= |stem| && stem[|stem| - |body|..] == body
    requires Plain(body[|body| - 1]) && Dropped(gap, Blanks)
    requires suffix in ["", "+PTX", "+ptx"] && (suffix == "" ==> gap == "")
    requires forall j :: 0 <= j < |stem| ==> stem[j] != '+'
    ensures var token := stem + gap + suffix;
      && (EndsWith(token, "+PTX") || EndsWith(token, "+ptx") <==> suffix != "")
      && (if suffix != "" then TrimEnd(token[..|token| - 4], Blanks) == stem else token == stem)
  {
    var token := stem + gap + suffix;
    assert stem[|stem| - 1] == stem[|stem| - |body|..][|body| - 1];
    if suffix == "" {
      assert token == stem;
      NoPlus(token);
    } else {
      assert token[|stem + gap|..] == suffix && token[..|token| - 4] == stem + gap;
      TrimEndPast(stem, gap, Blanks);
    }
  }

  lemma NoPlus(s: string)
    requires forall j :: 0 <= j < |s| ==> s[j] != '+'
    ensures !EndsWith(s, "+PTX") && !EndsWith(s, "+ptx")
  {
    if |s| >= 4 { assert s[|s| - 4..][0] == s[|s| - 4]; }
  }

  lemma BodyOf(prefix: string, body: string)
    requires prefix in ["", "sm_", "compute_"] && body != ""
    requires prefix == "" ==> !("sm_" <= body) && !("compute_" <= body)
    ensures StripPrefix(prefix + body) == body
  {
    var token := prefix + body;
    if prefix == "" {
      assert token == body;
    } else {
      assert token[0] == prefix[0] && token[|prefix|..] == body;
    }
  }

  /** Blanks and quotes alone are refused. */
  lemma EmptyRefused(lead: string, open: string, close: string, trail: string, raw: string)
    requires Wrapped(raw, "", lead, open, close, trail) && open == "" && close == ""
    ensures ParseToken(raw) == None
  {
    AllDropped(raw, Blanks);
  }

  lemma {:induction false} AllDropped(s: string, drop: Trimmed)
    requires Dropped(s, drop)
    ensures TrimStart(s, drop) == ""
  {
    if s != "" { AllDropped(s[1..], drop); }
  }

  // ----- how targets compare -----

  function Tens(n: nat): nat {
    if n == 0 then 1 else 10 * Tens(n - 1)
  }

  function Digit(c: char): int {
    c as int - '0' as int
  }

  /** A number read digit by digit from the left. */
  lemma {:induction false} DecimalFront(c: char, rest: string)
    requires '0' <= c <= '9' && Digits(rest)
    ensures Decimal("") == 0 && Decimal([c] + rest) == Digit(c) * Tens(|rest|) + Decimal(rest)
    decreases |rest|
  {
    var s := [c] + rest;
    if rest == "" {
      assert s == [c] && s[..0] == "";
    } else {
      var first := rest[..|rest| - 1];
      assert s[..|s| - 1] == [c] + first && s[|s| - 1] == rest[|rest| - 1];
      var p := Tens(|first|);
      DecimalFront(c, first);
      TenTimes(Digit(c), p, Tens(|rest|));
    }
  }

  lemma TenTimes(d: int, p: int, q: int)
    requires q == 10 * p
    ensures 10 * (d * p) == d * q
  {}

  lemma {:induction false} DecimalBelow(s: string)
    requires Digits(s)
    ensures Decimal(s) < Tens(|s|)
  {
    if s != "" {
      var rest, p := s[1..], Tens(|s| - 1);
      FirstDigit(s, s[0], rest, p);
      DecimalBelow(rest);
      AtMostNine(Digit(s[0]), p);
    }
  }

  lemma AtMostNine(d: int, p: int)
    requires 0 <= d <= 9 && p >= 0
    ensures 0 <= d * p <= 9 * p
  {}

  lemma {:induction false} TensAscend(m: nat, n: nat)
    requires m <= n
    ensures 0 < Tens(m) <= Tens(n)
  {
    if n > m { TensAscend(m, n - 1); } else if n > 0 { TensAscend(n - 1, n - 1); }
  }

  /** More digits without a leading zero make a larger number; as many digits compare as strings do. */
  lemma DecimalOrder(a: string, b: string)
    requires Digits(a) && Digits(b)
    ensures |a| > |b| && a[0] != '0' ==> Decimal(a) > Decimal(b)
    ensures |a| == |b| ==> (Decimal(a) < Decimal(b) <==> Before(a, b))
  {
    if |a| > |b| && a[0] != '0' {
      AboveTens(a);
      DecimalBelow(b);
      TensAscend(|b|, |a| - 1);
    }
    if |a| == |b| { SameLengthOrder(a, b); }
  }

  lemma AboveTens(a: string)
    requires Digits(a) && a != "" && a[0] != '0'
    ensures Decimal(a) >= Tens(|a| - 1)
  {
    var rest, p := a[1..], Tens(|a| - 1);
    FirstDigit(a, a[0], rest, p);
    TensAscend(0, |a| - 1);
    AtLeast(Digit(a[0]), p);
  }

  lemma {:induction false} SameLengthOrder(a: string, b: string)
    requires Digits(a) && Digits(b) && |a| == |b|
    ensures Decimal(a) < Decimal(b) <==> Before(a, b)
    ensures Decimal(a) == Decimal(b) <==> a == b
    decreases |a|
  {
    if a != "" {
      var x, y := a[1..], b[1..];
      assert a == [a[0]] + x && b == [b[0]] + y;
      DecimalBelow(x);
      DecimalBelow(y);
      SameLengthOrder(x, y);
      FirstDigit(a, a[0], x, Tens(|x|));
      FirstDigit(b, b[0], y, Tens(|x|));
      LeadingDigit(Digit(a[0]), Digit(b[0]), Tens(|x|), Decimal(x), Decimal(y), Decimal(a), Decimal(b));
    }
  }

  lemma FirstDigit(s: string, c: char, rest: string, p: int)
    requires s == [c] + rest && '0' <= c <= '9' && Digits(rest) && p == Tens(|rest|)
    ensures Decimal(s) == Digit(c) * p + Decimal(rest)
  {
    DecimalFront(c, rest);
  }

  lemma LeadingDigit(d: int, e: int, p: int, x: int, y: int, m: int, n: int)
    requires 0 <= x < p && 0 <= y < p && m == d * p + x && n == e * p + y
    ensures m < n <==> d < e || (d == e && x < y)
    ensures m == n <==> d == e && x == y
  {
    if d < e { LessByMultiple(d, e, p, x, y); }
    if e < d { LessByMultiple(e, d, p, y, x); }
  }

  lemma LessByMultiple(d: int, e: int, p: int, x: int, y: int)
    requires d < e && 0 <= x < p && 0 <= y
    ensures d * p + x < e * p + y
  {
    AtLeast(e - d, p);
    assert (e - d) * p == e * p - d * p;
  }

  /** The key of a target is its number; what is not a 32-bit number has key 0. */
  lemma KeyLaw(sm: string)
    ensures sm != "" && Digits(sm) && Decimal(sm) < 0x1_0000_0000 ==> Key(sm) == Decimal(sm)
    ensures sm == "" || (Digits(sm) && Decimal(sm) >= 0x1_0000_0000) ==> Key(sm) == 0
    ensures (exists i :: 0 < i < |sm| && !('0' <= sm[i] <= '9')) ==> Key(sm) == 0
  {
    if i :| 0 < i < |sm| && !('0' <= sm[i] <= '9') {
      assert sm[1..][i - 1] == sm[i];
    }
  }

  /** The entries in order: machine code for each target, followed by its PTX if it asked for it. */
  lemma RequestedLaw(specs: seq<SmSpec>, last: SmSpec)
    ensures Requested([]) == []
    ensures Requested(specs + [last]) == Requested(specs) + [Sass(last.sm)] + if last.ptx then [Ptx(last.sm)] else []
  {
    var all := specs + [last];
    assert all[..|all| - 1] == specs && all[|all| - 1] == last;
  }

  // ----- how targets are printed -----

  /** A target is printed with a dot before its last digit, and targets are joined by semicolons. */
  lemma PrintLaw(sm: string, d: char, first: string, rest: seq<string>)
    ensures sm != "" ==> ArchListToken(sm + [d]) == sm + "." + [d]
    ensures ArchListToken([d]) == [d]
    ensures Join([first]) == first && (rest != [] ==> Join([first] + rest) == first + ";" + Join(rest))
  {
    var all := sm + [d];
    assert all[..|all| - 1] == sm && all[|all| - 1..] == [d];
    assert ([first] + rest)[1..] == rest;
  }

  /** The hint prints every other target, in order, without PTX. */
  lemma OthersLaw(specs: seq<SmSpec>, failed: string, last: SmSpec)
    ensures Others([], failed) == []
    ensures Others(specs + [last], failed)
      == Others(specs, failed) + if last.sm == failed then [] else [SmSpec(last.sm, false)]
  {
    if specs == [] {
      assert [last][1..] == [];
    } else {
      assert (specs + [last])[1..] == specs[1..] + [last];
      OthersLaw(specs[1..], failed, last);
    }
  }

  /** There is a hint exactly when some other target is left. */
  lemma {:induction false} HintLaw(specs: seq<SmSpec>, failed: string)
    ensures Hint(specs, failed) == None <==> forall i :: 0 <= i < |specs| ==> specs[i].sm == failed
  {
    if specs != [] {
      HintLaw(specs[1..], failed);
      assert specs == [specs[0]] + specs[1..];
    }
  }

  /** Targets are listed in the order of their characters: by the first difference, a prefix first. */
  lemma {:induction false} BeforeLaw(p: string, x: char, a: string, y: char, b: string)
    ensures Before(p, p + [x] + a) && !Before(p + [x] + a, p) && !Before(p, p)
    ensures x != y ==> (Before(p + [x] + a, p + [y] + b) <==> x < y)
  {
    if p == "" {
      assert p + [x] + a == [x] + a && p + [y] + b == [y] + b;
    } else {
      BeforeLaw(p[1..], x, a, y, b);
      assert (p + [x] + a)[1..] == p[1..] + [x] + a && (p + [y] + b)[1..] == p[1..] + [y] + b;
    }
  }
}
