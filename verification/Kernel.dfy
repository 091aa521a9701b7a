/** The kernel objects behind the file descriptors: the outgoing side of a socket. */
module Kernel {
  import opened Framing

  datatype WriteResult = Wrote(n: nat) | Again | Failed

  /** How many bytes the kernel took over a series of answers. */
  ghost function Taken(answers: seq<WriteResult>): nat {
    if answers == [] then 0
    else Taken(answers[..|answers| - 1])
         + if answers[|answers| - 1].Wrote? then answers[|answers| - 1].n else 0
  }

  lemma TakenMore(answers: seq<WriteResult>, r: WriteResult)
    ensures Taken(answers + [r]) == Taken(answers) + if r.Wrote? then r.n else 0
  {
    assert (answers + [r])[..|answers|] == answers;
  }

  /** The kernel took something at every answer but the last. */
  ghost predicate TookUntil(answers: seq<WriteResult>) {
    forall i :: 0 <= i < |answers| - 1 ==> answers[i].Wrote? && answers[i].n > 0
  }

  /** `sent` is every byte the peer will receive, `answers` every answer to a `write`. */
  class Socket {
    var sent: seq<byte>
    ghost var answers: seq<WriteResult>

    constructor ()
      ensures sent == [] && answers == []
    {
      sent, answers := [], [];
    }

    /** The answers after the first `k`. */
    ghost function Since(k: nat): seq<WriteResult>
      reads this
    {
      if k <= |answers| then answers[k..] else []
    }

    /** A nonblocking `write`, interrupted calls already retried: any front of the bytes may be taken, or none. */
    method Write(bytes: seq<byte>) returns (r: WriteResult)
      modifies this
      ensures r.Wrote? ==> r.n <= |bytes| && sent == old(sent) + bytes[..r.n]
      ensures !r.Wrote? ==> sent == old(sent)
      ensures answers == old(answers) + [r]
    {
      if * {
        var n: nat :| n <= |bytes|;
        sent := sent + bytes[..n];
        r := Wrote(n);
      } else if * {
        r := Again;
      } else {
        r := Failed;
      }
      answers := answers + [r];
    }
  }
}
