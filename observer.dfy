/**
 * The mutation-observer callback installed by `startScanning`: it decides
 * whether a batch of DOM mutation records calls for a rescan, and if so
 * schedules one after a fixed delay. Each triggering batch schedules its
 * own rescan; nothing coalesces them.
 */
module Observer {
  import opened Wrappers

  datatype MutationKind = ChildList | Attributes | CharacterData

  /** A mutation record, reduced to its type and the length of `addedNodes`. */
  datatype MutationRecord = MutationRecord(kind: MutationKind, addedNodes: nat)

  /** The `setTimeout` delay before the rescan, in milliseconds. */
  const RescanDelayMs: nat := 500

  /** One record calls for a rescan: it is a `childList` change that added at least one node. */
  predicate Triggers(m: MutationRecord) {
    m.kind == ChildList && m.addedNodes > 0
  }

  /** `shouldScan` after the `forEach`: some record of the batch triggers. */
  predicate ShouldScan(ms: seq<MutationRecord>) {
    exists i :: 0 <= i < |ms| && Triggers(ms[i])
  }

  /**
   * The callback: the `forEach` over the batch, then the rescan it
   * schedules, as the delay to wait, or `None` when it schedules nothing.
   */
  method OnMutations(ms: seq<MutationRecord>) returns (rescanAfter: Option<nat>)
    ensures rescanAfter.Some? <==> ShouldScan(ms)
    ensures rescanAfter.Some? ==> rescanAfter.value == RescanDelayMs
  {
    var shouldScan := false;
    var i := 0;
    while i < |ms|
      invariant 0 <= i <= |ms|
      invariant shouldScan <==> exists j :: 0 <= j < i && Triggers(ms[j])
    {
      if ms[i].kind == ChildList && ms[i].addedNodes > 0 {
        shouldScan := true;
      }
      i := i + 1;
    }
    rescanAfter := if shouldScan then Some(RescanDelayMs) else None;
  }

  /**
   * Splitting a batch does not change the decision: a batch triggers exactly
   * when one of its parts does, so the outcome does not depend on how the
   * browser groups records into callbacks (only the number of rescans does).
   */
  lemma ShouldScanConcat(a: seq<MutationRecord>, b: seq<MutationRecord>)
    ensures ShouldScan(a + b) <==> ShouldScan(a) || ShouldScan(b)
  {
    if ShouldScan(a + b) {
      var i :| 0 <= i < |a + b| && Triggers((a + b)[i]);
      if i >= |a| {
        assert (a + b)[i] == b[i - |a|];
      }
    }
    if ShouldScan(a) {
      var i :| 0 <= i < |a| && Triggers(a[i]);
      assert (a + b)[i] == a[i];
    }
    if ShouldScan(b) {
      var i :| 0 <= i < |b| && Triggers(b[i]);
      assert (a + b)[|a| + i] == b[i];
    }
  }
}
