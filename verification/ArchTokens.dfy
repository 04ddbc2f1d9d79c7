/** One compute-capability token: `8.0`, `80`, `sm_80`, `compute_80`, each with an optional `+PTX`. */
module ArchTokens {
  import opened Wrappers

  /** A target SM as decimal digits, and whether PTX was asked for. */
  datatype SmSpec = SmSpec(sm: string, ptx: bool)

  predicate IsDigit(c: char) {
    '0' <= c <= '9'
  }

  /** Unicode White_Space. */
  predicate IsWhitespace(c: char) {
    var n := c as int;
    9 <= n <= 13 || n == 0x20 || n == 0x85 || n == 0xA0 || n == 0x1680 || 0x2000 <= n <= 0x200A || n == 0x2028
    || n == 0x2029 || n == 0x202F || n == 0x205F || n == 0x3000
  }

  /** What a trim takes off. */
  datatype Trimmed = Blanks | Quotes

  predicate Drops(drop: Trimmed, c: char) {
    match drop
    case Blanks => IsWhitespace(c)
    case Quotes => c == '"'
  }

  predicate AllDigits(s: string) {
    forall i :: 0 <= i < |s| ==> IsDigit(s[i])
  }

  function TrimStart(s: string, drop: Trimmed): string {
    if s != "" && Drops(drop, s[0]) then TrimStart(s[1..], drop) else s
  }

  function TrimEnd(s: string, drop: Trimmed): string {
    if s != "" && Drops(drop, s[|s| - 1]) then TrimEnd(s[..|s| - 1], drop) else s
  }

  function Trim(s: string, drop: Trimmed): string {
    TrimEnd(TrimStart(s, drop), drop)
  }

  predicate EndsWith(s: string, suffix: string) {
    |suffix| <= |s| && s[|s| - |suffix|..] == suffix
  }

  /** Position of the first dot, or the length. */
  function FirstDot(s: string): (i: nat)
    ensures i <= |s| && (forall j :: 0 <= j < i ==> s[j] != '.') && (i < |s| ==> s[i] == '.')
  {
    if s == "" || s[0] == '.' then 0 else 1 + FirstDot(s[1..])
  }

  function StripPrefix(token: string): string {
    if "sm_" <= token then token[3..] else if "compute_" <= token then token[8..] else token
  }

  /** The digits of a capability: a dot is dropped, a lone digit is a major version. */
  function Capability(token: string): Option<string> {
    var dot := FirstDot(token);
    if dot < |token| then
      var major, minor := token[..dot], token[dot + 1..];
      if AllDigits(major) && AllDigits(minor) then Some(major + minor) else None
    else if AllDigits(token) then Some(if |token| == 1 then token + "0" else token)
    else None
  }

  /** What a trimmed token says. */
  function ReadTrimmed(token: string): Option<SmSpec> {
    var ptx := EndsWith(token, "+PTX") || EndsWith(token, "+ptx");
    var stem := if ptx then TrimEnd(token[..|token| - 4], Blanks) else token;
    match Capability(StripPrefix(stem))
    case None => None
    case Some(sm) => Some(SmSpec(sm, ptx))
  }

  function ParseToken(raw: string): Option<SmSpec> {
    var token := Trim(Trim(raw, Blanks), Quotes);
    if token == "" then None else ReadTrimmed(token)
  }

  /** `80` as `8.0`. */
  function ArchListToken(sm: string): string {
    if |sm| < 2 then sm else sm[..|sm| - 1] + "." + sm[|sm| - 1..]
  }

  // ----- every spelling of a target -----

  /** A way to write one SM; blanks may stand before the suffix. */
  predicate Spelling(token: string, spec: SmSpec, prefix: string, dotted: bool, gap: string, suffix: string) {
    && prefix in ["", "sm_", "compute_"]
    && suffix in ["", "+PTX", "+ptx"] && (spec.ptx <==> suffix != "")
    && Dropped(gap, Blanks) && (suffix == "" ==> gap == "")
    && token == prefix + (if dotted then ArchListToken(spec.sm) else spec.sm) + gap + suffix
  }

  predicate Dropped(s: string, drop: Trimmed) {
    forall i :: 0 <= i < |s| ==> Drops(drop, s[i])
  }

  /** A token in quotes, or in several, or in none, with blanks around it. */
  predicate Wrapped(raw: string, token: string, lead: string, open: string, close: string, trail: string) {
    && Dropped(lead, Blanks) && Dropped(open, Quotes) && Dropped(close, Quotes) && Dropped(trail, Blanks)
    && raw == lead + (open + token + close) + trail
  }

  predicate Plain(c: char) {
    forall drop :: !Drops(drop, c)
  }

  lemma {:induction false} TrimStartPast(lead: string, s: string, drop: Trimmed)
    requires Dropped(lead, drop) && s != "" && !Drops(drop, s[0])
    ensures TrimStart(lead + s, drop) == s
  {
    if lead == "" {
      assert lead + s == s;
    } else {
      TrimStartPast(lead[1..], s, drop);
      assert (lead + s)[1..] == lead[1..] + s;
    }
  }

  lemma {:induction false} TrimEndPast(s: string, trail: string, drop: Trimmed)
    requires Dropped(trail, drop) && s != "" && !Drops(drop, s[|s| - 1])
    ensures TrimEnd(s + trail, drop) == s
  {
    if trail == "" {
      assert s + trail == s;
    } else {
      var rest := trail[..|trail| - 1];
      TrimEndPast(s, rest, drop);
      assert (s + trail)[..|s + trail| - 1] == s + rest;
    }
  }

  /** A trim takes off what stands around a core that starts and ends with something else. */
  lemma TrimAround(lead: string, core: string, trail: string, drop: Trimmed)
    requires Dropped(lead, drop) && Dropped(trail, drop)
    requires core != "" && !Drops(drop, core[0]) && !Drops(drop, core[|core| - 1])
    ensures Trim(lead + core + trail, drop) == core
  {
    assert lead + core + trail == lead + (core + trail) && (core + trail)[0] == core[0];
    TrimStartPast(lead, core + trail, drop);
    TrimEndPast(core, trail, drop);
  }

  lemma NotBoth(c: char)
    ensures !(Drops(Blanks, c) && Drops(Quotes, c))
  {}

  /** The parser's two trims recover a wrapped token. */
  lemma Unwrapped(raw: string, token: string, lead: string, open: string, close: string, trail: string)
    requires Wrapped(raw, token, lead, open, close, trail)
    requires token != "" && Plain(token[0]) && Plain(token[|token| - 1])
    ensures Trim(Trim(raw, Blanks), Quotes) == token
  {
    var core := open + token + close;
    assert core[0] == if open == "" then token[0] else open[0];
    assert core[|core| - 1] == if close == "" then token[|token| - 1] else close[|close| - 1];
    NotBoth(core[0]);
    NotBoth(core[|core| - 1]);
    TrimAround(lead, core, trail, Blanks);
    TrimAround(open, token, close, Quotes);
  }

  /** Wherever the dot stands, the digits around it are the SM: `12.0` and `1.20` are one target. */
  lemma DotAnywhere(sm: string, k: nat)
    requires AllDigits(sm) && k <= |sm|
    ensures Capability(sm[..k] + "." + sm[k..]) == Some(sm)
  {
    var token := sm[..k] + "." + sm[k..];
    assert token[k] == '.' && forall j :: 0 <= j < k ==> token[j] == sm[j] && IsDigit(token[j]);
    assert FirstDot(token) == k;
    assert token[..k] == sm[..k] && token[k + 1..] == sm[k..] && sm[..k] + sm[k..] == sm;
  }

  lemma CapabilityBack(sm: string, dotted: bool)
    requires AllDigits(sm) && |sm| >= 2
    ensures Capability(if dotted then ArchListToken(sm) else sm) == Some(sm)
  {
    if dotted { DotAnywhere(sm, |sm| - 1); }
  }

  /** Every spelling of a target with at least two digits, in quotes or not and with blanks around it,
      parses to that target. */
  lemma SpellingParses(raw: string, token: string, spec: SmSpec, prefix: string, dotted: bool, gap: string,
                       suffix: string, lead: string, open: string, close: string, trail: string)
    requires AllDigits(spec.sm) && |spec.sm| >= 2 && Spelling(token, spec, prefix, dotted, gap, suffix)
    requires Wrapped(raw, token, lead, open, close, trail)
    ensures ParseToken(raw) == Some(spec)
  {
    var body := if dotted then ArchListToken(spec.sm) else spec.sm;
    assert IsDigit(body[0]) && IsDigit(body[|body| - 1]);
    PlainEnds(prefix, body, gap, suffix);
    Unwrapped(raw, token, lead, open, close, trail);
    SpellingReads(token, spec, prefix, dotted, body, gap, suffix);
  }

  lemma SpellingReads(token: string, spec: SmSpec, prefix: string, dotted: bool, body: string, gap: string,
                      suffix: string)
    requires AllDigits(spec.sm) && |spec.sm| >= 2 && Spelling(token, spec, prefix, dotted, gap, suffix)
    requires body == if dotted then ArchListToken(spec.sm) else spec.sm
    requires IsDigit(body[0]) && IsDigit(body[|body| - 1])
    ensures ReadTrimmed(token) == Some(spec)
  {
    var stem := prefix + body;
    assert stem[|stem| - 1] == body[|body| - 1];
    SuffixStripped(stem, gap, suffix);
    PrefixStripped(prefix, body);
    CapabilityBack(spec.sm, dotted);
    assert suffix == "" ==> token == stem;
  }

  lemma PlainEnds(prefix: string, body: string, gap: string, suffix: string)
    requires prefix in ["", "sm_", "compute_"] && suffix in ["", "+PTX", "+ptx"] && (suffix == "" ==> gap == "")
    requires body != "" && IsDigit(body[0]) && IsDigit(body[|body| - 1])
    ensures var token := prefix + body + gap + suffix;
      Plain(token[0]) && Plain(token[|token| - 1])
  {
    var token := prefix + body + gap + suffix;
    assert token[0] == if prefix == "" then body[0] else prefix[0];
    assert token[|token| - 1] == if suffix == "" then body[|body| - 1] else suffix[|suffix| - 1];
  }

  lemma SuffixStripped(stem: string, gap: string, suffix: string)
    requires stem != "" && IsDigit(stem[|stem| - 1]) && suffix in ["", "+PTX", "+ptx"] && Dropped(gap, Blanks)
    requires suffix == "" ==> gap == ""
    ensures var token := stem + gap + suffix;
      && (EndsWith(token, "+PTX") || EndsWith(token, "+ptx") <==> suffix != "")
      && (suffix != "" ==> TrimEnd(token[..|token| - 4], Blanks) == stem)
  {
    var token := stem + gap + suffix;
    if suffix == "" {
      assert token[|token| - 1] == stem[|stem| - 1];
    } else {
      assert token[|stem + gap|..] == suffix && token[..|token| - 4] == stem + gap;
      TrimEndPast(stem, gap, Blanks);
    }
  }

  lemma PrefixStripped(prefix: string, body: string)
    requires prefix in ["", "sm_", "compute_"] && body != "" && IsDigit(body[0])
    ensures StripPrefix(prefix + body) == body
  {
    var token := prefix + body;
    if prefix == "" {
      assert token[0] == body[0];
    } else {
      assert token[0] == prefix[0] && token[|prefix|..] == body;
    }
  }

  /** The printed token parses back to its SM, without PTX, exactly when the SM has two digits or more. */
  lemma TokenBackIff(sm: string)
    requires AllDigits(sm)
    ensures ParseToken(ArchListToken(sm)) == Some(SmSpec(sm, false)) <==> |sm| >= 2
  {
    if |sm| >= 2 {
      var token := ArchListToken(sm);
      SpellingParses(token, token, SmSpec(sm, false), "", true, "", "", "", "", "", "");
    } else if |sm| == 1 {
      Unwrapped(sm, sm, "", "", "", "");
      LoneDigit(sm);
    }
  }

  /** A lone digit is read as a major version. */
  lemma LoneDigit(sm: string)
    requires AllDigits(sm) && |sm| == 1
    ensures ReadTrimmed(sm) == Some(SmSpec(sm + "0", false))
  {
    assert !EndsWith(sm, "+PTX") && !EndsWith(sm, "+ptx");
    PrefixStripped("", sm);
    assert "" + sm == sm && StripPrefix(sm) == sm;
    assert FirstDot(sm) == 1;
  }
}
