/** The user stack over a whole sequence of faults, from the bounds a program starts with. */
module StackGrowth {
  import opened UserHeap

  const START: nat := 0xF000_0FF0
  const FIRST: nat := 0xF000_0000

  /** Faults on unmarked pages, one after the other: the stack reaches down to ends[i] before fault i. */
  ghost predicate Faults(faults: seq<nat>, outs: seq<Outcome>, ends: seq<nat>) {
    && |outs| == |faults| && |ends| == |faults| + 1 && ends[0] == FIRST
    && forall i :: 0 <= i < |faults| ==> StackFault(START, ends[i], faults[i], outs[i], ends[i + 1])
  }

  lemma FaultAt(faults: seq<nat>, outs: seq<Outcome>, ends: seq<nat>, i: nat, j: nat)
    requires Faults(faults, outs, ends) && i < |faults| && j == i + 1
    ensures StackFault(START, ends[i], faults[i], outs[i], ends[j])
  {
  }

  /** The end of the stack is always at a page, and never moves up. */
  lemma {:induction false} EndsFall(faults: seq<nat>, outs: seq<Outcome>, ends: seq<nat>, i: nat, j: nat)
    requires Faults(faults, outs, ends) && i <= j <= |faults|
    ensures ends[j] <= ends[i] <= FIRST && ends[j] % 4096 == 0
    decreases j
  {
    if j > 0 {
      FaultAt(faults, outs, ends, j - 1, j);
      EndsFall(faults, outs, ends, if i < j then i else j - 1, j - 1);
    }
  }

  /** Whatever came before: a fault in the stack's last page or below extends the stack exactly while
      it has at most 1000 pages. */
  lemma GrowsWithin(faults: seq<nat>, outs: seq<Outcome>, ends: seq<nat>, i: nat)
    requires Faults(faults, outs, ends) && i < |faults| && faults[i] < ends[i] + 4096
    ensures outs[i].Grown? <==> FIRST - ends[i] <= 999 * 4096
    ensures !outs[i].Grown? ==> outs[i].SegmentationFault?
  {
    EndsFall(faults, outs, ends, i, i);
    FaultAt(faults, outs, ends, i, i + 1);
  }

  /** Once the stack has more pages than that, every fault on an unmarked page ends the process. */
  lemma {:induction false} PastLimit(faults: seq<nat>, outs: seq<Outcome>, ends: seq<nat>, i: nat, j: nat)
    requires Faults(faults, outs, ends) && i <= j < |faults| && FIRST - ends[i] > 999 * 4096
    ensures outs[j].SegmentationFault? && ends[j] == ends[i]
    decreases j
  {
    EndsFall(faults, outs, ends, i, i);
    if j > i {
      PastLimit(faults, outs, ends, i, j - 1);
      FaultAt(faults, outs, ends, j - 1, j);
    }
    FaultAt(faults, outs, ends, j, j + 1);
  }

  /** A program that works its way down, each fault in the page right below its stack: it gets a
      thousand pages, one a fault, and the fault after that is its last. */
  lemma {:induction false} PageByPage(faults: seq<nat>, outs: seq<Outcome>, ends: seq<nat>, i: nat)
    requires Faults(faults, outs, ends) && i < |faults|
    requires forall j :: 0 <= j <= i ==> faults[j] < ends[j] <= faults[j] + 4096
    ensures i < 1000 ==> ends[i] == FIRST - i * 4096 && ends[i + 1] == ends[i] - 4096 && outs[i].Grown?
    ensures i >= 1000 ==> ends[i] == FIRST - 1000 * 4096 && outs[i].SegmentationFault?
  {
    EndsFall(faults, outs, ends, i, i);
    FaultAt(faults, outs, ends, i, i + 1);
    if i > 0 {
      PageByPage(faults, outs, ends, i - 1);
      FaultAt(faults, outs, ends, i - 1, i);
    }
  }

  /** The limit is on the stack before the fault: after a fault that extends it, it is within the limit
      exactly if the fault's page is. */
  lemma WithinAfterIff(end: nat, fault: nat, out: Outcome, end': nat)
    requires end <= FIRST && StackFault(START, end, fault, out, end') && out.Grown?
    ensures START - end' <= 4096000 <==> fault >= FIRST - 999 * 4096
  {
  }

  /** The first fault alone can take the stack past the limit, down to address 0. */
  lemma OneFaultPastLimit()
    ensures StackFault(START, FIRST, 0, Grown, 0) && START - 0 > 4096000
  {
  }
}
