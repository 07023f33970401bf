/** The records that are updated in place: memory blocks and processes. */
module ProcessData {
  import opened Jobs
  import opened LinkedLists
  import opened MemoryModel

  datatype BlockType = PROCESS | HOLE

  class Block {
    var kind: BlockType
    var start: nat
    var size: nat
    ghost var owner: Job  // of a PROCESS block

    constructor (kind: BlockType, start: nat, size: nat, ghost owner: Job)
      ensures this.kind == kind && this.start == start && this.size == size && this.owner == owner
    {
      this.kind, this.start, this.size, this.owner := kind, start, size, owner;
    }

    /** The block as a value. */
    ghost function View(): Seg
      reads this
    {
      if kind == HOLE then Hole(start, size) else Used(start, size, owner)
    }
  }

  /** One loaded process with its remaining service time and the node of its memory block. */
  class Process {
    const job: Job
    var left: nat
    var finishTime: nat
    var turnaround: nat
    var blockNode: Node?<Block>

    constructor (job: Job)
      ensures this.job == job && left == job.service && blockNode == null
    {
      this.job := job;
      left := job.service;
      finishTime, turnaround := 0, 0;
      blockNode := null;
    }
  }

  /** The jobs of a sequence of processes. */
  function JobsOf(ps: seq<Process>): (r: seq<Job>)
    ensures |r| == |ps|
    ensures forall i :: 0 <= i < |ps| ==> r[i] == ps[i].job
  {
    seq(|ps|, i requires 0 <= i < |ps| => ps[i].job)
  }

  lemma FirstOf(ps: seq<Process>)
    ensures ps == [] ==> JobsOf(ps) == []
    ensures ps != [] ==> JobsOf(ps) != [] && JobsOf(ps)[0] == ps[0].job && JobsOf(ps)[1..] == JobsOf(ps[1..])
  {}

  lemma LastOf(ps: seq<Process>, p: Process)
    ensures JobsOf(ps + [p]) == JobsOf(ps) + [p.job]
  {}
}
