/** The list of target SMs: parsing it, the hint that names the others, the compiler arguments it gives. */
module ArchList {
  import opened Wrappers
  import opened ArchTokens

  datatype ListError = BadToken(token: string) | Unsupported(sm: string) | NoTargets

  const T1_SMS: seq<string> := ["80", "86", "89", "90"]
  const T2_SMS: seq<string> := ["100", "120"]
  const LEGACY_VOLTA_SMS: seq<string> := ["70"]

  predicate IsSupported(sm: string) {
    sm in T1_SMS || sm in T2_SMS || sm in LEGACY_VOLTA_SMS
  }

  /** An older SM is built alone. */
  predicate ValidSet(specs: seq<SmSpec>) {
    (exists s :: s in specs && s.sm in LEGACY_VOLTA_SMS) ==> |specs| == 1
  }

  // ----- sorted sets of strings -----

  predicate Before(a: string, b: string) {
    b != "" && (a == "" || a[0] < b[0] || (a[0] == b[0] && Before(a[1..], b[1..])))
  }

  lemma {:induction false} BeforeTotal(a: string, b: string)
    ensures Before(a, b) || a == b || Before(b, a)
    ensures !(Before(a, b) && Before(b, a)) && !Before(a, a)
  {
    if a != "" && b != "" {
      BeforeTotal(a[1..], b[1..]);
      assert a == [a[0]] + a[1..] && b == [b[0]] + b[1..];
    }
    if a != "" && a != b { BeforeTotal(a[1..], a[1..]); }
  }

  lemma {:induction false} BeforeTransitive(a: string, b: string, c: string)
    requires Before(a, b) && Before(b, c)
    ensures Before(a, c)
  {
    if a != "" && a[0] == b[0] == c[0] {
      BeforeTransitive(a[1..], b[1..], c[1..]);
    }
  }

  predicate Ascending(s: seq<string>) {
    forall i, j :: 0 <= i < j < |s| ==> Before(s[i], s[j])
  }

  function Elements(s: seq<string>): set<string> {
    set x | x in s
  }

  /** Insertion into an ordered set. */
  function Insert(s: seq<string>, x: string): seq<string> {
    if s == [] then [x]
    else if x == s[0] then s
    else if Before(x, s[0]) then [x] + s
    else [s[0]] + Insert(s[1..], x)
  }

  lemma {:induction false} InsertKeeps(s: seq<string>, x: string)
    requires Ascending(s)
    ensures Ascending(Insert(s, x)) && Elements(Insert(s, x)) == Elements(s) + {x}
  {
    var r := Insert(s, x);
    if s == [] || x == s[0] {
    } else if Before(x, s[0]) {
      forall j | 0 <= j < |s| ensures Before(x, s[j]) {
        if j > 0 { BeforeTransitive(x, s[0], s[j]); }
      }
    } else {
      BeforeTotal(x, s[0]);
      InsertKeeps(s[1..], x);
      var rest := Insert(s[1..], x);
      assert s == [s[0]] + s[1..];
      forall j | 0 <= j < |rest| ensures Before(s[0], rest[j]) {
        assert rest[j] in Elements(rest);
      }
      assert Elements(r) == {s[0]} + Elements(rest);
    }
  }

  /** An ordered listing is settled by its elements. */
  lemma {:induction false} SameElements(s: seq<string>, t: seq<string>)
    requires Ascending(s) && Ascending(t) && Elements(s) == Elements(t)
    ensures s == t
  {
    assert (s != [] ==> s[0] in Elements(s)) && (t != [] ==> t[0] in Elements(t));
    if s != [] {
      FirstIsLeast(s, t);
      FirstIsLeast(t, s);
      BeforeTotal(s[0], t[0]);
      RestElements(s);
      RestElements(t);
      SameElements(s[1..], t[1..]);
      assert s == [s[0]] + s[1..] && t == [t[0]] + t[1..];
    }
  }

  lemma FirstIsLeast(s: seq<string>, t: seq<string>)
    requires Ascending(s) && s != [] && t != [] && Elements(t) <= Elements(s)
    ensures s[0] == t[0] || Before(s[0], t[0])
  {
    assert t[0] in Elements(t);
    var k :| 0 <= k < |s| && s[k] == t[0];
  }

  lemma RestElements(s: seq<string>)
    requires Ascending(s) && s != []
    ensures Elements(s[1..]) == Elements(s) - {s[0]}
  {
    BeforeTotal(s[0], s[0]);
    forall x ensures x in Elements(s[1..]) <==> x in Elements(s) - {s[0]} {
      if x in Elements(s) - {s[0]} {
        var k :| 0 <= k < |s| && s[k] == x;
        assert s[1..][k - 1] == x;
      }
    }
  }

  // ----- tokens -----

  predicate IsSeparator(c: char) {
    c == ';' || c == ',' || IsWhitespace(c)
  }

  function NextSeparator(s: string): (i: nat)
    ensures i <= |s| && (forall j :: 0 <= j < i ==> !IsSeparator(s[j])) && (i < |s| ==> IsSeparator(s[i]))
  {
    if s == "" || IsSeparator(s[0]) then 0 else 1 + NextSeparator(s[1..])
  }

  function Pieces(raw: string): seq<string> {
    var i := NextSeparator(raw);
    if i == |raw| then [raw] else [raw[..i]] + Pieces(raw[i + 1..])
  }

  function NonEmpty(pieces: seq<string>): set<string> {
    set t | t in pieces && t != ""
  }

  function Tokens(raw: string): set<string> {
    NonEmpty(Pieces(raw))
  }

  predicate Good(token: string) {
    ParseToken(token).Some? && IsSupported(ParseToken(token).value.sm)
  }

  /** What the readable tokens say. */
  function SpecsOf(tokens: set<string>): set<SmSpec> {
    set t | t in tokens && ParseToken(t).Some? :: ParseToken(t).value
  }

  function SmsOf(tokens: set<string>): set<string> {
    set s | s in SpecsOf(tokens) :: s.sm
  }

  function PtxOf(tokens: set<string>): set<string> {
    set s | s in SpecsOf(tokens) && s.ptx :: s.sm
  }

  function Sms(specs: seq<SmSpec>): seq<string> {
    seq(|specs|, i requires 0 <= i < |specs| => specs[i].sm)
  }

  /** One target for each SM named, in string order, with PTX when any of its tokens asks for it. */
  predicate Lists(specs: seq<SmSpec>, tokens: set<string>) {
    && Ascending(Sms(specs)) && Elements(Sms(specs)) == SmsOf(tokens)
    && forall i :: 0 <= i < |specs| ==> (specs[i].ptx <==> specs[i].sm in PtxOf(tokens))
  }

  /** The first token that is not good, and what is wrong with it. */
  predicate FailsAt(pieces: seq<string>, k: nat, error: ListError)
    requires k < |pieces|
  {
    && pieces[k] != "" && (forall t :: t in NonEmpty(pieces[..k]) ==> Good(t))
    && match ParseToken(pieces[k])
       case None => error == BadToken(pieces[k])
       case Some(spec) => error == Unsupported(spec.sm) && !IsSupported(spec.sm)
  }

  method ParseArchList(raw: string) returns (r: Result<seq<SmSpec>, ListError>)
    ensures r.Ok? <==> Tokens(raw) != {} && forall t :: t in Tokens(raw) ==> Good(t)
    ensures r.Ok? ==> Lists(r.value, Tokens(raw))
    ensures r == Err(NoTargets) <==> Tokens(raw) == {}
    ensures r.Err? && r.error != NoTargets ==> exists k :: 0 <= k < |Pieces(raw)| && FailsAt(Pieces(raw), k, r.error)
  {
    var pieces := Pieces(raw);
    var sms: seq<string>, ptxFor: seq<string> := [], [];
    for i := 0 to |pieces|
      invariant Collected(sms, ptxFor, NonEmpty(pieces[..i]))
    {
      var token := pieces[i];
      NextPiece(pieces, i);
      if token == "" { continue; }
      match ParseToken(token)
      case None =>
        assert FailsAt(pieces, i, BadToken(token));
        return Err(BadToken(token));
      case Some(spec) =>
        if !IsSupported(spec.sm) {
          assert FailsAt(pieces, i, Unsupported(spec.sm));
          return Err(Unsupported(spec.sm));
        }
        Collect(sms, ptxFor, NonEmpty(pieces[..i]), token, spec);
        if spec.ptx { ptxFor := Insert(ptxFor, spec.sm); }
        sms := Insert(sms, spec.sm);
    }
    assert pieces[..|pieces|] == pieces;
    if sms == [] { return Err(NoTargets); }
    assert sms[0] in Elements(sms);
    var specs := seq(|sms|, i requires 0 <= i < |sms| => SmSpec(sms[i], sms[i] in ptxFor));
    assert Sms(specs) == sms;
    return Ok(specs);
  }

  /** Both sets hold what the tokens so far ask for, and all of these are good. */
  predicate Collected(sms: seq<string>, ptxFor: seq<string>, tokens: set<string>) {
    && Ascending(sms) && Ascending(ptxFor)
    && Elements(sms) == SmsOf(tokens) && Elements(ptxFor) == PtxOf(tokens)
    && (forall t :: t in tokens ==> Good(t)) && (sms == [] ==> tokens == {})
  }

  lemma NextPiece(pieces: seq<string>, i: nat)
    requires i < |pieces|
    ensures pieces[i] in NonEmpty(pieces) <==> pieces[i] != ""
    ensures NonEmpty(pieces[..i + 1]) == NonEmpty(pieces[..i]) + if pieces[i] == "" then {} else {pieces[i]}
  {
    assert pieces[..i + 1] == pieces[..i] + [pieces[i]];
  }

  lemma Collect(sms: seq<string>, ptxFor: seq<string>, tokens: set<string>, token: string, spec: SmSpec)
    requires Collected(sms, ptxFor, tokens) && ParseToken(token) == Some(spec) && IsSupported(spec.sm)
    ensures Collected(Insert(sms, spec.sm), if spec.ptx then Insert(ptxFor, spec.sm) else ptxFor, tokens + {token})
  {
    TokenAdded(tokens, token, spec);
    InsertKeeps(ptxFor, spec.sm);
    InsertKeeps(sms, spec.sm);
  }

  lemma TokenAdded(tokens: set<string>, token: string, spec: SmSpec)
    requires ParseToken(token) == Some(spec)
    ensures SmsOf(tokens + {token}) == SmsOf(tokens) + {spec.sm}
    ensures PtxOf(tokens + {token}) == if spec.ptx then PtxOf(tokens) + {spec.sm} else PtxOf(tokens)
  {
    SpecAdded(tokens, token, spec);
  }

  lemma SpecAdded(tokens: set<string>, token: string, spec: SmSpec)
    requires ParseToken(token) == Some(spec)
    ensures SpecsOf(tokens + {token}) == SpecsOf(tokens) + {spec}
  {
    var all := SpecsOf(tokens + {token});
    forall s ensures s in all <==> s in SpecsOf(tokens) + {spec} {
      if s in all {
        var t :| t in tokens + {token} && ParseToken(t) == Some(s);
      }
    }
  }

  // ----- the result depends on the tokens alone -----

  /** Order, repetition and separators do not matter: the set of tokens settles the targets. */
  lemma ListingUnique(specs: seq<SmSpec>, others: seq<SmSpec>, tokens: set<string>)
    requires Lists(specs, tokens) && Lists(others, tokens)
    ensures specs == others
  {
    SameElements(Sms(specs), Sms(others));
    assert |specs| == |Sms(specs)| == |Sms(others)| == |others|;
    forall i | 0 <= i < |specs| ensures specs[i] == others[i] {
      assert Sms(specs)[i] == Sms(others)[i];
    }
  }

  // ----- the hint after a failed build -----

  /** The targets left when one is excluded, as plain targets. */
  function Others(specs: seq<SmSpec>, failed: string): seq<SmSpec> {
    if specs == [] then []
    else if specs[0].sm == failed then Others(specs[1..], failed)
    else [SmSpec(specs[0].sm, false)] + Others(specs[1..], failed)
  }

  function Printed(specs: seq<SmSpec>): seq<string> {
    seq(|specs|, i requires 0 <= i < |specs| => ArchListToken(specs[i].sm))
  }

  function Join(parts: seq<string>): string {
    if parts == [] then "" else if |parts| == 1 then parts[0] else parts[0] + ";" + Join(parts[1..])
  }

  /** The list suggested to the user, unless no target is left. */
  function Hint(specs: seq<SmSpec>, failed: string): Option<string> {
    var others := Others(specs, failed);
    if others == [] then None else Some(Join(Printed(others)))
  }

  predicate Separate(parts: seq<string>) {
    forall i, j :: 0 <= i < |parts| && 0 <= j < |parts[i]| ==> !IsSeparator(parts[i][j])
  }

  /** Splitting undoes joining. */
  lemma {:induction false} PiecesOfJoin(parts: seq<string>)
    requires parts != [] && Separate(parts)
    ensures Pieces(Join(parts)) == parts
  {
    var all, first := Join(parts), parts[0];
    assert forall j :: 0 <= j < |first| ==> all[j] == first[j] && !IsSeparator(all[j]);
    if |parts| == 1 {
      assert NextSeparator(all) == |all|;
    } else {
      assert all[|first|] == ';';
      assert NextSeparator(all) == |first|;
      assert all[..|first|] == first && all[|first| + 1..] == Join(parts[1..]);
      PiecesOfJoin(parts[1..]);
      assert parts == [first] + parts[1..];
    }
  }

  lemma ConsAscending(first: string, rest: seq<string>)
    requires Ascending(rest) && forall x :: x in Elements(rest) ==> Before(first, x)
    ensures Ascending([first] + rest) && Elements([first] + rest) == {first} + Elements(rest)
  {
    forall j | 0 <= j < |rest| ensures Before(first, rest[j]) {
      assert rest[j] in Elements(rest);
    }
  }

  lemma {:induction false} OthersAre(specs: seq<SmSpec>, failed: string)
    requires Ascending(Sms(specs))
    ensures Ascending(Sms(Others(specs, failed)))
    ensures Elements(Sms(Others(specs, failed))) == Elements(Sms(specs)) - {failed}
  {
    if specs != [] {
      var first, all := specs[0].sm, Sms(specs);
      assert all[1..] == Sms(specs[1..]);
      RestElements(all);
      OthersAre(specs[1..], failed);
      var rest := Sms(Others(specs[1..], failed));
      assert all[0] in Elements(all);
      if first != failed {
        assert Sms(Others(specs, failed)) == [first] + rest;
        AfterFirst(all);
        ConsAscending(first, rest);
      }
    }
  }

  lemma AfterFirst(s: seq<string>)
    requires Ascending(s) && s != []
    ensures forall x :: x in Elements(s[1..]) ==> Before(s[0], x)
  {}

  lemma SupportedDigits(sm: string)
    requires IsSupported(sm)
    ensures AllDigits(sm) && |sm| >= 2
  {}

  lemma PrintedPlain(sm: string, token: string)
    requires AllDigits(sm) && |sm| >= 2 && token == ArchListToken(sm)
    ensures token != "" && forall j :: 0 <= j < |token| ==> !IsSeparator(token[j])
  {
    forall j | 0 <= j < |token| ensures IsDigit(token[j]) || token[j] == '.' {
      if j != |sm| - 1 { assert token[j] == sm[if j < |sm| then j else j - 1]; }
    }
  }

  lemma SpecsOfPrinted(others: seq<SmSpec>)
    requires forall s :: s in others ==> IsSupported(s.sm) && !s.ptx
    ensures SpecsOf(NonEmpty(Printed(others))) == set s | s in others
    ensures forall t :: t in NonEmpty(Printed(others)) ==> Good(t)
  {
    var parts := Printed(others);
    forall i | 0 <= i < |others| ensures ParseToken(parts[i]) == Some(others[i]) && parts[i] != "" {
      SupportedDigits(others[i].sm);
      TokenBackIff(others[i].sm);
      PrintedPlain(others[i].sm, parts[i]);
    }
    var specs := SpecsOf(NonEmpty(parts));
    forall s | s in others ensures s in specs {
      var i :| 0 <= i < |others| && others[i] == s;
      assert parts[i] in NonEmpty(parts);
    }
  }

  /** The hint parses back to exactly the other targets, none with PTX. */
  lemma HintBack(specs: seq<SmSpec>, failed: string, hint: string, back: seq<SmSpec>)
    requires Ascending(Sms(specs)) && forall s :: s in specs ==> IsSupported(s.sm)
    requires Hint(specs, failed) == Some(hint)
    ensures Tokens(hint) != {} && forall t :: t in Tokens(hint) ==> Good(t)
    ensures Lists(back, Tokens(hint)) ==> back == Others(specs, failed)
  {
    var others := Others(specs, failed);
    OthersAre(specs, failed);
    OthersSupported(specs, failed);
    var parts := Printed(others);
    forall i | 0 <= i < |parts|
      ensures parts[i] != "" && forall j :: 0 <= j < |parts[i]| ==> !IsSeparator(parts[i][j])
    {
      SupportedDigits(others[i].sm);
      PrintedPlain(others[i].sm, parts[i]);
    }
    PiecesOfJoin(parts);
    SpecsOfPrinted(others);
    assert parts[0] in Tokens(hint);
    PlainListing(others, Tokens(hint));
    if Lists(back, Tokens(hint)) { ListingUnique(back, others, Tokens(hint)); }
  }

  lemma {:induction false} OthersSupported(specs: seq<SmSpec>, failed: string)
    requires forall s :: s in specs ==> IsSupported(s.sm)
    ensures forall s :: s in Others(specs, failed) ==> IsSupported(s.sm) && !s.ptx
  {
    if specs != [] { OthersSupported(specs[1..], failed); }
  }

  lemma PlainListing(others: seq<SmSpec>, tokens: set<string>)
    requires Ascending(Sms(others)) && (forall s :: s in others ==> !s.ptx) && SpecsOf(tokens) == set s | s in others
    ensures Lists(others, tokens)
  {
    forall x ensures x in Elements(Sms(others)) <==> x in SmsOf(tokens) {
      if x in Elements(Sms(others)) {
        var i :| 0 <= i < |others| && Sms(others)[i] == x;
        assert others[i] in SpecsOf(tokens);
      }
      if x in SmsOf(tokens) {
        var s :| s in others && s.sm == x;
        var i :| 0 <= i < |others| && others[i] == s;
        assert Sms(others)[i] == x;
      }
    }
  }

  /** Excluding a target keeps a buildable set buildable. */
  lemma {:induction false} HintValid(specs: seq<SmSpec>, failed: string)
    requires ValidSet(specs)
    ensures ValidSet(Others(specs, failed))
  {
    OthersFrom(specs, failed);
    var others := Others(specs, failed);
    if s :| s in others && s.sm in LEGACY_VOLTA_SMS {
      var from :| from in specs && from.sm == s.sm;
      assert |specs| == 1;
      assert |Others(specs[1..], failed)| == 0;
    }
  }

  lemma {:induction false} OthersFrom(specs: seq<SmSpec>, failed: string)
    ensures forall s :: s in Others(specs, failed) ==> exists from :: from in specs && from.sm == s.sm
  {
    if specs != [] {
      OthersFrom(specs[1..], failed);
      forall s | s in Others(specs, failed) ensures exists from :: from in specs && from.sm == s.sm {
        if s.sm == specs[0].sm {
          assert specs[0] in specs;
        } else {
          var from :| from in specs[1..] && from.sm == s.sm;
          assert from in specs;
        }
      }
    }
  }
}
