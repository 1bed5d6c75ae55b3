/**
 * The translation part of `process_single_file`: the cue texts are cut into
 * consecutive batches of `BatchSize`, each batch is translated in turn and its
 * lines appended; the first batch that fails abandons the file. On success the
 * cues keep their timing and take the translated texts, saved under the `_ar`
 * name.
 */
module FileTranslation {
  import opened Wrappers
  import opened ResponseParser
  import opened BatchTranslator
  import opened FileNames

  /** `BATCH_SIZE` */
  const BatchSize: nat := 20

  /** One timed subtitle entry. */
  datatype Cue = Cue(startTime: string, endTime: string, text: string)

  /** What a successful run saves: the output name and the translated cues. */
  datatype SavedFile = SavedFile(name: FileName, cues: seq<Cue>)

  function Min(a: int, b: int): int
  {
    if a <= b then a else b
  }

  /** The length of the first slice `all_texts[0:BATCH_SIZE]`. */
  function FirstBatchLen(n: nat): (m: nat)
    ensures n > 0 ==> 0 < m <= n && m <= BatchSize
    ensures n >= BatchSize ==> m == BatchSize
  {
    Min(BatchSize, n)
  }

  /** The slices `all_texts[i:i + BATCH_SIZE]` for `i` in `range(0, n, BATCH_SIZE)`, in order. */
  function Batches(texts: seq<string>): (bs: seq<seq<string>>)
    ensures forall j :: 0 <= j < |bs| ==> 0 < |bs[j]| <= BatchSize
    decreases |texts|
  {
    if texts == [] then []
    else
      var m := FirstBatchLen(|texts|);
      [texts[..m]] + Batches(texts[m..])
  }

  function Flatten(bs: seq<seq<string>>): seq<string>
  {
    if bs == [] then [] else bs[0] + Flatten(bs[1..])
  }

  /** The batches cover the texts exactly: concatenated in order they give them back. */
  lemma {:induction false} BatchesConcatenate(texts: seq<string>)
    ensures Flatten(Batches(texts)) == texts
    decreases |texts|
  {
    if texts != [] {
      var m := FirstBatchLen(|texts|);
      BatchesConcatenate(texts[m..]);
      assert Batches(texts)[1..] == Batches(texts[m..]);
      assert texts[..m] + texts[m..] == texts;
    }
  }

  /**
   * Batch `j` is the Python slice `all_texts[20j : 20j + 20]`, and there are as
   * many batches as `range(0, n, 20)` has elements.
   */
  lemma {:induction false} BatchesAreSlices(texts: seq<string>, j: nat)
    ensures |Batches(texts)| == (|texts| + BatchSize - 1) / BatchSize
    ensures j < |Batches(texts)| ==>
      j * BatchSize < |texts| &&
      Batches(texts)[j] == texts[j * BatchSize .. Min(j * BatchSize + BatchSize, |texts|)]
    decreases |texts|
  {
    if texts != [] {
      var m := FirstBatchLen(|texts|);
      var rest := texts[m..];
      if j == 0 {
        BatchesAreSlices(rest, 0);
      } else {
        BatchesAreSlices(rest, j - 1);
        if j < |Batches(texts)| {
          assert m == BatchSize;
          assert Batches(texts)[j] == Batches(rest)[j - 1];
          var lo, hi := (j - 1) * BatchSize, Min((j - 1) * BatchSize + BatchSize, |rest|);
          assert lo + BatchSize == j * BatchSize;
          assert hi + BatchSize == Min(j * BatchSize + BatchSize, |texts|);
          assert rest[lo..hi] == texts[lo + BatchSize..hi + BatchSize];
        }
      }
    }
  }

  /**
   * Batches translated one after the other: the first failing batch ends the
   * run with `None`, and no later batch is sent.
   */
  function TranslateBatches(bs: seq<seq<string>>, service: Service, decode: Decoder, calls: nat): (r: Run)
    ensures calls <= r.calls
    ensures r.result.Some? ==>
      |r.result.value| == |Flatten(bs)| &&
      forall i :: 0 <= i < |r.result.value| ==> IsWrapped(r.result.value[i])
    decreases |bs|
  {
    if bs == [] then Run(Some([]), calls)
    else
      var b := TranslateBatch(bs[0], service, decode, calls);
      if b.result.None? then Run(None, b.calls)
      else
        var rest := TranslateBatches(bs[1..], service, decode, b.calls);
        if rest.result.None? then rest
        else Run(Some(b.result.value + rest.result.value), rest.calls)
  }

  /**
   * The specification of the batching loop: the slices of `Batches(texts)`
   * translated in order; a successful file translation has one wrapped line
   * per text.
   */
  function TranslateAll(texts: seq<string>, service: Service, decode: Decoder, calls: nat): (r: Run)
    ensures calls <= r.calls
    ensures r.result.Some? ==>
      |r.result.value| == |texts| &&
      forall i :: 0 <= i < |texts| ==> IsWrapped(r.result.value[i])
  {
    BatchesConcatenate(texts);
    TranslateBatches(Batches(texts), service, decode, calls)
  }

  /** `run` with `prefix` put in front of its result. */
  function Prepend(prefix: seq<string>, run: Run): Run
  {
    Run(if run.result.Some? then Some(prefix + run.result.value) else None, run.calls)
  }

  lemma PrependNothing(run: Run)
    ensures Prepend([], run) == run
  {
    if run.result.Some? {
      assert [] + run.result.value == run.result.value;
    }
  }

  /** One step of the loop: the batch starting at `i` is the first batch of `texts[i..]`. */
  lemma NextBatch(texts: seq<string>, i: nat, hi: nat, service: Service, decode: Decoder, calls: nat)
    requires i < |texts| && hi == Min(i + BatchSize, |texts|)
    ensures var b := TranslateBatch(texts[i..hi], service, decode, calls);
      TranslateAll(texts[i..], service, decode, calls) ==
        if b.result.None? then Run(None, b.calls)
        else Prepend(b.result.value, TranslateAll(texts[hi..], service, decode, b.calls))
  {
    var m := FirstBatchLen(|texts| - i);
    assert texts[i..][..m] == texts[i..hi];
    assert texts[i..][m..] == texts[hi..];
    assert Batches(texts[i..]) == [texts[i..hi]] + Batches(texts[hi..]);
  }

  lemma PrependTwice(a: seq<string>, b: seq<string>, run: Run)
    ensures Prepend(a, Prepend(b, run)) == Prepend(a + b, run)
  {
    if run.result.Some? {
      assert a + (b + run.result.value) == (a + b) + run.result.value;
    }
  }

  /**
   * The loop `for i in range(0, len(all_texts), BATCH_SIZE)` with
   * `translated_texts.extend(...)`; `None` where the source returns `False`.
   */
  method TranslateTexts(texts: seq<string>, service: Service, decode: Decoder, calls0: nat)
    returns (translated: Option<seq<string>>, calls: nat)
    ensures Run(translated, calls) == TranslateAll(texts, service, decode, calls0)
  {
    var acc: seq<string> := [];
    var i := 0;
    calls := calls0;
    assert texts[i..] == texts;
    PrependNothing(TranslateAll(texts, service, decode, calls));
    while i < |texts|
      invariant 0 <= i <= |texts|
      invariant Prepend(acc, TranslateAll(texts[i..], service, decode, calls)) ==
        TranslateAll(texts, service, decode, calls0)
      decreases |texts| - i
    {
      // Slicing clamps at the end, so the next start is i + BATCH_SIZE or the end.
      var hi := if i + BatchSize <= |texts| then i + BatchSize else |texts|;
      var batch := texts[i..hi];
      NextBatch(texts, i, hi, service, decode, calls);
      var b := TranslateBatch(batch, service, decode, calls);
      calls := b.calls;
      if b.result.None? {
        return None, calls;
      }
      PrependTwice(acc, b.result.value, TranslateAll(texts[hi..], service, decode, calls));
      acc := acc + b.result.value;
      i := hi;
    }
    assert texts[i..] == [];
    assert acc + [] == acc;
    translated := Some(acc);
  }

  /** The cue texts, in cue order. */
  function Texts(subs: seq<Cue>): (r: seq<string>)
    ensures |r| == |subs| && forall i :: 0 <= i < |subs| ==> r[i] == subs[i].text
  {
    seq(|subs|, i requires 0 <= i < |subs| => subs[i].text)
  }

  /**
   * `process_single_file` after reading: translate all cue texts; on failure
   * save nothing; on success every cue keeps its timing and position and takes
   * the translated text of the same index, under the `_ar` output name.
   */
  method ProcessSingleFile(file: FileName, subs: seq<Cue>, isVtt: bool, service: Service, decode: Decoder, calls0: nat)
    returns (saved: Option<SavedFile>, calls: nat)
    ensures calls == TranslateAll(Texts(subs), service, decode, calls0).calls
    ensures saved.Some? <==> TranslateAll(Texts(subs), service, decode, calls0).result.Some?
    ensures saved.Some? ==>
      saved.value.name == SavedOutputName(file, isVtt) &&
      |saved.value.cues| == |subs| &&
      forall i :: 0 <= i < |subs| ==>
        saved.value.cues[i].startTime == subs[i].startTime &&
        saved.value.cues[i].endTime == subs[i].endTime &&
        saved.value.cues[i].text == TranslateAll(Texts(subs), service, decode, calls0).result.value[i]
  {
    var translated;
    translated, calls := TranslateTexts(Texts(subs), service, decode, calls0);
    if translated.None? {
      return None, calls;
    }
    var cues := Retext(subs, translated.value);
    saved := Some(SavedFile(SavedOutputName(file, isVtt), cues));
  }

  /**
   * The loop `for i, sub in enumerate(subs)` that gives every cue its
   * translated text: same cues, same timing, text `i` at cue `i`.
   */
  method Retext(subs: seq<Cue>, texts: seq<string>) returns (cues: seq<Cue>)
    requires |texts| == |subs|
    ensures |cues| == |subs|
    ensures forall i :: 0 <= i < |subs| ==>
      cues[i].startTime == subs[i].startTime && cues[i].endTime == subs[i].endTime && cues[i].text == texts[i]
  {
    cues := [];
    for i := 0 to |subs|
      invariant |cues| == i
      invariant forall k :: 0 <= k < i ==> cues[k] == subs[k].(text := texts[k])
    {
      cues := cues + [subs[i].(text := texts[i])];
    }
  }

  /**
   * End to end alignment: with an honest service a successful file translation
   * is exactly the wrapped line-by-line translation of all cue texts.
   */
  lemma {:induction false} HonestFileAligned(texts: seq<string>, service: Service, decode: Decoder,
                                             tr: string -> string, calls: nat)
    requires Honest(service, decode, tr)
    ensures TranslateAll(texts, service, decode, calls).result.Some? ==>
      TranslateAll(texts, service, decode, calls).result.value == WrapAll(Translated(tr, texts))
  {
    BatchesConcatenate(texts);
    HonestBatchesAligned(Batches(texts), service, decode, tr, calls);
  }

  lemma {:induction false} HonestBatchesAligned(bs: seq<seq<string>>, service: Service, decode: Decoder,
                                                tr: string -> string, calls: nat)
    requires Honest(service, decode, tr)
    ensures TranslateBatches(bs, service, decode, calls).result.Some? ==>
      TranslateBatches(bs, service, decode, calls).result.value == WrapAll(Translated(tr, Flatten(bs)))
    decreases |bs|
  {
    if bs != [] {
      HonestServiceAligned(bs[0], service, decode, tr, calls);
      var b := TranslateBatch(bs[0], service, decode, calls);
      HonestBatchesAligned(bs[1..], service, decode, tr, b.calls);
      if TranslateBatches(bs, service, decode, calls).result.Some? {
        TranslatedConcat(tr, bs[0], Flatten(bs[1..]));
        WrapAllConcat(Translated(tr, bs[0]), Translated(tr, Flatten(bs[1..])));
      }
    }
  }
}
