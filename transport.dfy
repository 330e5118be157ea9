/** The HID transport behind InternalWrite (hid_write) and InternalRead
    (hid_get_feature_report).  The device is a parameter of the model: a
    script of the values the next hid_write calls return, and of the replies
    the next feature-report reads return.  A write past the end of its script
    returns a full report (the script lists the transport's faults, finitely
    many); a read past the end of its script fails. */
module Hid {
  import opened Config
  import opened Framing

  /** What one hid_get_feature_report call returns: its byte count and the report buffer it left. */
  datatype Reply = Reply(count: int, data: Report)

  /** A read the device does not answer. */
  const NO_REPLY := Reply(-1, Zeroed())

  /** Return value of the i-th hid_write of the session. */
  function WriteAt(writeResults: seq<int>, i: nat): int
  {
    if i < |writeResults| then writeResults[i] else REPORT_SIZE
  }

  /** Outcome of the i-th feature-report read of the session. */
  function ReplyAt(replies: seq<Reply>, i: nat): Reply
  {
    if i < |replies| then replies[i] else NO_REPLY
  }

  /** Writes from..from+k-1 all transfer a whole report. */
  predicate AllDelivered(writeResults: seq<int>, from: nat, k: nat)
  {
    forall i :: from <= i < from + k ==> WriteAt(writeResults, i) == REPORT_SIZE
  }

  /** Reads from..from+k-1 all return a whole report. */
  predicate AllFull(replies: seq<Reply>, from: nat, k: nat)
  {
    forall i :: from <= i < from + k ==> ReplyAt(replies, i).count == REPORT_SIZE
  }

  /** Position, among the k writes starting at from, of the first short one (k if none). */
  function FirstFailure(writeResults: seq<int>, from: nat, k: nat): (f: nat)
    ensures f <= k
    ensures AllDelivered(writeResults, from, f)
    ensures f < k ==> WriteAt(writeResults, from + f) != REPORT_SIZE
    ensures f == k <==> AllDelivered(writeResults, from, k)
    decreases k
  {
    if k == 0 then 0
    else if WriteAt(writeResults, from) != REPORT_SIZE then 0
    else 1 + FirstFailure(writeResults, from + 1, k - 1)
  }

  /** Position, among the k reads starting at from, of the first short one (k if none). */
  function FirstShortReply(replies: seq<Reply>, from: nat, k: nat): (f: nat)
    ensures f <= k
    ensures AllFull(replies, from, f)
    ensures f < k ==> ReplyAt(replies, from + f).count != REPORT_SIZE
    ensures f == k <==> AllFull(replies, from, k)
    decreases k
  {
    if k == 0 then 0
    else if ReplyAt(replies, from).count != REPORT_SIZE then 0
    else 1 + FirstShortReply(replies, from + 1, k - 1)
  }

  /** The first failure is wherever a short write follows only whole ones. */
  lemma FirstFailureIs(writeResults: seq<int>, from: nat, k: nat, f: nat)
    requires f < k && AllDelivered(writeResults, from, f)
    requires WriteAt(writeResults, from + f) != REPORT_SIZE
    ensures FirstFailure(writeResults, from, k) == f
  {
  }

  /** The same for reads. */
  lemma FirstShortReplyIs(replies: seq<Reply>, from: nat, k: nat, f: nat)
    requires f < k && AllFull(replies, from, f)
    requires ReplyAt(replies, from + f).count != REPORT_SIZE
    ensures FirstShortReply(replies, from, k) == f
  {
  }

  /** Writes 0 and n + 1 of a run bracketing n writes: the run is whole iff both ends and the middle are. */
  lemma DeliveredBracket(writeResults: seq<int>, from: nat, n: nat)
    ensures AllDelivered(writeResults, from, n + 2)
         == (WriteAt(writeResults, from) == REPORT_SIZE && AllDelivered(writeResults, from + 1, n)
             && WriteAt(writeResults, from + n + 1) == REPORT_SIZE)
  {
    if WriteAt(writeResults, from) == REPORT_SIZE && AllDelivered(writeResults, from + 1, n)
       && WriteAt(writeResults, from + n + 1) == REPORT_SIZE {
      forall i | from <= i < from + n + 2
        ensures WriteAt(writeResults, i) == REPORT_SIZE
      {
        if from < i < from + n + 1 {
          assert from + 1 <= i < from + 1 + n;
        }
      }
    }
  }

  /** A run of n + 1 writes is whole iff its first write and the n after it are. */
  lemma DeliveredHead(writeResults: seq<int>, from: nat, n: nat)
    ensures AllDelivered(writeResults, from, n + 1)
         == (WriteAt(writeResults, from) == REPORT_SIZE && AllDelivered(writeResults, from + 1, n))
  {
    if WriteAt(writeResults, from) == REPORT_SIZE && AllDelivered(writeResults, from + 1, n) {
      forall i | from <= i < from + n + 1
        ensures WriteAt(writeResults, i) == REPORT_SIZE
      {
        if from < i {
          assert from + 1 <= i < from + 1 + n;
        }
      }
    }
  }

  /** A sent log that is a prefix before, a first report x, and a prefix of
      reads restarts the plan [x] + headers + [y] after before. */
  lemma BracketedPrefix<T>(before: seq<T>, x: T, headers: seq<T>, y: T, done: nat, sent: seq<T>)
    requires done <= |headers| && sent == before + [x] + headers[..done]
    ensures before <= sent && sent[|before|..] <= [x] + headers + [y]
  {
    assert sent[|before|..] == [x] + headers[..done];
  }

  /** One more whole write extends the run of whole writes. */
  lemma DeliveredNext(writeResults: seq<int>, from: nat, i: nat)
    requires AllDelivered(writeResults, from, i) && WriteAt(writeResults, from + i) == REPORT_SIZE
    ensures AllDelivered(writeResults, from, i + 1)
  {
  }

  /** One more whole reply extends the run of whole replies. */
  lemma FullNext(replies: seq<Reply>, from: nat, i: nat)
    requires AllFull(replies, from, i) && ReplyAt(replies, from + i).count == REPORT_SIZE
    ensures AllFull(replies, from, i + 1)
  {
  }

  /** Sending the next report of a plan extends the sent prefix of the plan. */
  lemma SentNext<T>(before: seq<T>, plan: seq<T>, i: nat, sent: seq<T>)
    requires i < |plan| && sent == before + plan[..i] + [plan[i]]
    ensures sent == before + plan[..i + 1]
  {
    assert plan[..i + 1] == plan[..i] + [plan[i]];
  }

  /** Moving the next planned report from the rest of the plan to what was sent. */
  lemma SendShift<T>(whole: seq<T>, sent: seq<T>, x: T, rest: seq<T>)
    requires whole == sent + ([x] + rest)
    ensures whole == (sent + [x]) + rest
  {
  }

  /** What was sent so far is a prefix of the plan behind what was sent before. */
  lemma SentPrefix<T>(before: seq<T>, plan: seq<T>, sent: seq<T>, rest: seq<T>)
    requires before + plan == sent + rest && |before| <= |sent|
    ensures sent == before + plan[..|sent| - |before|]
  {
    assert sent == (before + plan)[..|sent|];
  }

  /** A fail-fast run of k writes whose i-th is the first short one issues i + 1 writes. */
  lemma StoppedAt(writeResults: seq<int>, from: nat, k: nat, i: nat)
    requires i < k && AllDelivered(writeResults, from, i)
    requires WriteAt(writeResults, from + i) != REPORT_SIZE
    ensures Attempted(writeResults, from, k) == i + 1
    ensures !AllDelivered(writeResults, from, k)
  {
    FirstFailureIs(writeResults, from, k, i);
  }

  /** How many of k planned writes a fail-fast sequence actually issues: up to
      and including the first short one. */
  function Attempted(writeResults: seq<int>, from: nat, k: nat): (n: nat)
    ensures n <= k
    ensures k > 0 ==> (n == k <==> AllDelivered(writeResults, from, k - 1))
  {
    var f := FirstFailure(writeResults, from, k);
    if f < k then f + 1 else k
  }

  /** The reports of a plan a fail-fast sender issues when its writes start at
      from: all of them if every write is whole, otherwise up to and including
      the first short one. */
  function Issued<T>(writeResults: seq<int>, from: nat, plan: seq<T>): (issued: seq<T>)
    ensures issued <= plan
    ensures AllDelivered(writeResults, from, |plan|) ==> issued == plan
    ensures !AllDelivered(writeResults, from, |plan|) ==>
      0 < |issued| && WriteAt(writeResults, from + |issued| - 1) != REPORT_SIZE
      && AllDelivered(writeResults, from, |issued| - 1)
  {
    plan[..Attempted(writeResults, from, |plan|)]
  }

  /** Issuing a plan is issuing its first report and, if that write is whole,
      the rest of it after it. */
  lemma IssuedCons<T>(writeResults: seq<int>, from: nat, x: T, rest: seq<T>)
    ensures Issued(writeResults, from, [x] + rest)
         == [x] + (if WriteAt(writeResults, from) == REPORT_SIZE then Issued(writeResults, from + 1, rest) else [])
    ensures AllDelivered(writeResults, from, 1 + |rest|)
         == (WriteAt(writeResults, from) == REPORT_SIZE && AllDelivered(writeResults, from + 1, |rest|))
  {
    var plan := [x] + rest;
    assert FirstFailure(writeResults, from, |plan|) ==
      (if WriteAt(writeResults, from) != REPORT_SIZE then 0 else 1 + FirstFailure(writeResults, from + 1, |rest|));
    if WriteAt(writeResults, from) == REPORT_SIZE {
      ConsPrefix(x, rest, Attempted(writeResults, from + 1, |rest|));
    }
  }

  lemma Regroup<T>(a: seq<T>, b: seq<T>, c: seq<T>)
    ensures (a + b) + c == a + (b + c)
  {
  }

  lemma AppendDrop<T>(a: seq<T>, b: seq<T>)
    ensures a <= a + b && (a + b)[|a|..] == b
  {
  }

  lemma PrefixNext<T>(s: seq<T>, j: nat)
    requires j < |s|
    ensures s[..j + 1] == s[..j] + [s[j]]
  {
  }

  lemma ConsPrefix<T>(x: T, s: seq<T>, m: nat)
    requires m <= |s|
    ensures ([x] + s)[..1 + m] == [x] + s[..m]
  {
  }

  /** The report buffers left by k reads starting at from. */
  function ReplyReports(replies: seq<Reply>, from: nat, k: nat): (reports: seq<Report>)
    ensures |reports| == k
  {
    seq<Report>(k, i requires 0 <= i => ReplyAt(replies, from + i).data)
  }

  /** Report i of them is the buffer the (from + i)-th read left. */
  lemma ReplyReportsAt(replies: seq<Reply>, from: nat, k: nat, i: nat)
    requires i < k
    ensures ReplyReports(replies, from, k)[i] == ReplyAt(replies, from + i).data
  {
  }

  /** The device end of the HID connection (the hid_device handle). */
  class Transport {
    /** Return values of successive hid_write calls. */
    const writeResults: seq<int>
    /** Successive feature-report replies. */
    const replies: seq<Reply>
    /** Every report handed to hid_write so far, in order, whether or not it got through. */
    var sent: seq<Report>
    /** Number of feature-report reads so far. */
    var readCount: nat

    constructor (writeResults: seq<int>, replies: seq<Reply>)
      ensures this.writeResults == writeResults && this.replies == replies
      ensures sent == [] && readCount == 0
    {
      this.writeResults := writeResults;
      this.replies := replies;
      sent := [];
      readCount := 0;
    }

    /** Whether the i-th write of the session transfers a whole report. */
    predicate Delivered(i: nat)
    {
      WriteAt(writeResults, i) == REPORT_SIZE
    }

    /** hid_write of one report; returns the number of bytes written. */
    method InternalWrite(report: Report) returns (res: int)
      modifies this
      ensures sent == old(sent) + [report] && readCount == old(readCount)
      ensures res == WriteAt(writeResults, |old(sent)|)
    {
      res := WriteAt(writeResults, |sent|);
      sent := sent + [report];
    }

    /** hid_get_feature_report into a report buffer; returns the byte count
        and the buffer's new contents. */
    method InternalRead() returns (res: int, report: Report)
      modifies this
      ensures sent == old(sent) && readCount == old(readCount) + 1
      ensures res == ReplyAt(replies, old(readCount)).count
      ensures report == ReplyAt(replies, old(readCount)).data
    {
      var reply := ReplyAt(replies, readCount);
      res, report := reply.count, reply.data;
      readCount := readCount + 1;
    }
  }
}
