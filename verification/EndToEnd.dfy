/** From two lossy lines to validated records. */
module EndToEnd {
  import opened Wire
  import opened ArbitratorSpec
  import opened ArbitratorRuns
  import opened ArbitratorTheorems
  import opened ArbitratorWindows
  import opened FeedArbitrator
  import opened Validator
  import opened SymbolTable
  import ValidatorRuns

  /** Every copy of sequence first + i, on either line, carries the i-th record. */
  ghost predicate Carries(evs: seq<Event>, first: nat, stream: seq<Record>) {
    forall i | 0 <= i < |evs| && evs[i].Offer? ::
      && first <= evs[i].packet.seqNo < first + |stream|
      && evs[i].packet.record == stream[evs[i].packet.seqNo - first]
  }

  /** What the sink hands to the validator. */
  function Payloads(out: seq<(nat, Record)>): seq<Record> {
    seq(|out|, i requires 0 <= i < |out| => out[i].1)
  }

  /**
   If between them the lines deliver every record of a stream, each copy within the window,
   then the validator is handed the stream itself, whatever was dropped, repeated or
   reordered.
   */
  lemma LossyLinesValidateAlike(window: nat, evs: seq<Event>, stream: seq<Record>)
    requires window >= 1 && FromLowest(evs) && InWindow(Allowance(window), evs)
    requires Carries(evs, evs[0].packet.seqNo, stream)
    requires forall n :: n in Offered(evs)
                         <==> evs[0].packet.seqNo <= n < evs[0].packet.seqNo + |stream|
    ensures Payloads(Run(window, evs).out) == stream
  {
    var s, a := Run(window, evs), evs[0].packet.seqNo;
    CompleteDelivery(window, evs, a + |stream|);
    assert |Seqs(s.out)| == |stream|;
    WindowSufficiency(window, evs);
    SolidFrontier(window, evs);
    forall k: nat | k < |stream| ensures Payloads(s.out)[k] == stream[k] {
      assert Seqs(s.out)[k] == a + k;
      PayloadAt(window, evs, a, stream, k);
    }
  }

  lemma PayloadAt(window: nat, evs: seq<Event>, first: nat, stream: seq<Record>, k: nat)
    requires window >= 1 && Run(window, evs).started && Carries(evs, first, stream)
    requires k < |Run(window, evs).out| && Run(window, evs).out[k].0 == first + k
    ensures k < |stream| && Run(window, evs).out[k].1 == stream[k]
  {
    var i := DeliversFirstCopy(window, evs, k);
  }

  /**
   The objects themselves: an arbitrator whose lines carried the stream, and a validator that
   its sink has fed. Nothing is missing or left buffered, the validator has checked the
   stream, and its table is the one of validating the stream directly.
   */
  lemma SinkSeesStream(arb: Arbitrator, v: RecordValidator, stream: seq<Record>)
    requires arb.Reached() && FromLowest(arb.events)
    requires InWindow(Allowance(arb.window), arb.events)
    requires Carries(arb.events, arb.events[0].packet.seqNo, stream)
    requires forall n :: n in Offered(arb.events)
                         <==> arb.events[0].packet.seqNo <= n
                              < arb.events[0].packet.seqNo + |stream|
    requires v.Valid() && v.records == Payloads(arb.model.out)
    ensures arb.gaps == 0 && arb.occupied == 0 && arb.rejected == 0
    ensures arb.delivered == |stream| && v.records == stream
    ensures TableOk(v.hash, v.table[..], ValidatorRuns.MapRun(CAPACITY, stream))
  {
    LossyLinesValidateAlike(arb.window, arb.events, stream);
    CompleteDelivery(arb.window, arb.events, arb.events[0].packet.seqNo + |stream|);
  }
}
