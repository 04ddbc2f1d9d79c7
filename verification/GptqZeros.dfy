/** The zero-point validator, and what a clean report buys: both converters write the same bytes. */
module GptqZeros {
  import opened Wrappers
  import opened Bits
  import opened PackedFields
  import opened Tensors
  import opened Nibbles
  import opened GptqConvert
  import opened GptqAgree
  import G = Gptq

  datatype BadNibble = BadNibble(word: nat, nibble: nat, value: nat)

  datatype ZeroReport = ZeroReport(allSevens: bool, firstBad: seq<BadNibble>)

  function NibbleIn(data: seq<nat>, word: nat, t: nat): nat
    requires word < |data| / 4
  {
    Field(G.Word(data, word), t, 4)
  }

  /** The nibbles other than 7 among the first m, in order. */
  function BadAmong(data: seq<nat>, m: nat): (bad: seq<BadNibble>)
    requires m <= 8 * (|data| / 4)
    ensures |bad| == 0 <==> forall p :: 0 <= p < m ==> NibbleIn(data, p / 8, p % 8) == 7
  {
    if m == 0 then []
    else
      var p := m - 1;
      var before, v := BadAmong(data, p), NibbleIn(data, p / 8, p % 8);
      if v == 7 then before else before + [BadNibble(p / 8, p % 8, v)]
  }

  function Listed(data: seq<nat>, m: nat): seq<BadNibble>
    requires m <= 8 * (|data| / 4)
  {
    FirstEight(BadAmong(data, m))
  }

  /** Scanning one more nibble keeps it unless it is 7 or eight are listed. */
  lemma BadStep(data: seq<nat>, w: nat, t: nat, m: nat)
    requires w < |data| / 4 && t < 8 && m == 8 * w + t
    ensures var bad, v := Listed(data, m), NibbleIn(data, w, t);
      Listed(data, m + 1) == if v != 7 && |bad| < 8 then bad + [BadNibble(w, t, v)] else bad
  {
    assert m / 8 == w && m % 8 == t;
    var v := NibbleIn(data, w, t);
    assert BadAmong(data, m + 1) == if v == 7 then BadAmong(data, m) else BadAmong(data, m) + [BadNibble(w, t, v)];
  }

  function FirstEight(bad: seq<BadNibble>): seq<BadNibble> {
    if |bad| <= 8 then bad else bad[..8]
  }

  method ScanWord(data: seq<nat>, w: nat, sofar: seq<BadNibble>) returns (bad: seq<BadNibble>)
    requires w < |data| / 4 && sofar == Listed(data, 8 * w)
    ensures bad == Listed(data, 8 * (w + 1))
  {
    bad := sofar;
    ghost var m := 8 * w;
    for t := 0 to 8
      invariant m == 8 * w + t && bad == Listed(data, m)
    {
      BadStep(data, w, t, m);
      var v := NibbleIn(data, w, t);
      ghost var next := Listed(data, m + 1);
      if v != 7 && |bad| < 8 { bad := bad + [BadNibble(w, t, v)]; }
      assert bad == next;
      m := m + 1;
    }
  }

  method ScanWords(data: seq<nat>, words: nat) returns (bad: seq<BadNibble>)
    requires words == |data| / 4
    ensures bad == Listed(data, 8 * words)
  {
    bad := [];
    for w := 0 to words
      invariant bad == Listed(data, 8 * w)
    {
      bad := ScanWord(data, w, bad);
    }
  }

  /** Scan every nibble; keep the first eight that are not 7. */
  method ValidateQzeros(data: seq<nat>) returns (r: Result<ZeroReport, G.ReadError>)
    ensures |data| % 4 != 0 ==> r == Err(G.Unaligned)
    ensures |data| % 4 == 0 ==> r.Ok? && r.value.firstBad == Listed(data, 8 * (|data| / 4))
    ensures r.Ok? ==>
      (r.value.allSevens <==> forall w: nat, t: nat :: w < |data| / 4 && t < 8 ==> NibbleIn(data, w, t) == 7)
  {
    if |data| % 4 != 0 { return Err(G.Unaligned); }
    var words := |data| / 4;
    var bad := ScanWords(data, words);
    CleanIff(data, words);
    r := Ok(ZeroReport(|bad| == 0, bad));
  }

  lemma CleanIff(data: seq<nat>, words: nat)
    requires words == |data| / 4
    ensures |Listed(data, 8 * words)| == 0 <==>
      forall w: nat, t: nat :: w < words && t < 8 ==> NibbleIn(data, w, t) == 7
  {
    assert |Listed(data, 8 * words)| == 0 <==> |BadAmong(data, 8 * words)| == 0;
    if |BadAmong(data, 8 * words)| == 0 {
      forall w: nat, t: nat | w < words && t < 8 ensures NibbleIn(data, w, t) == 7 {
        var p := 8 * w + t;
        assert p / 8 == w && p % 8 == t;
      }
    }
  }

  /** A layer whose zero points pass the validator converts to the same layout either way. */
  lemma CleanZerosAgree(layer: Layer, bytes: seq<nat>, zeros: seq<nat>, layout: Layout)
    requires layer.Shaped() && SameWords(layer, bytes) && Covers(bytes, layer.kPacked, layer.n)
    requires Converted(layout, bytes, layer.kPacked, layer.n, layer.scales, layer.groups)
    requires |zeros| == 4 * |layer.qzeros| && G.AreBytes(zeros)
    requires forall w :: 0 <= w < |layer.qzeros| ==>
      G.Word(zeros, w) < WORD && layer.qzeros[w] == ToInt32(G.Word(zeros, w))
    requires forall w: nat, t: nat :: w < |zeros| / 4 && t < 8 ==> NibbleIn(zeros, w, t) == 7
    ensures UnpackGptq(layer) == layout
  {
    forall i: nat, k: nat | i < layer.n && k < 8 * layer.kPacked ensures AgreesAt(layer, i, k) {
      Inside(layer.kPacked, layer.n, layer.groups, layer.gs, i, k);
      var w := At2(k / layer.gs, i / 8, layer.n / 8);
      SignedNibbleIs(G.Word(zeros, w), i % 8);
      assert NibbleIn(zeros, w, i % 8) == 7;
    }
    ConvertersAgreeIff(layer, bytes, layout);
  }
}
