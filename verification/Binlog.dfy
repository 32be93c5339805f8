/** The retained write log of one slot (src/cache/binlog.cpp). */
module Binlog {
  import opened Core

  // sizeof(BinlogRecord) and sizeof(std::string) with the 64-bit GNU library.
  const RECORD_BYTES: nat := 48
  const STRING_BYTES: nat := 32

  function ArgBytes(args: seq<string>): nat {
    if args == [] then 0 else STRING_BYTES + |args[0]| + ArgBytes(args[1..])
  }

  function RecordBytes(r: Record): nat {
    RECORD_BYTES + ArgBytes(r.args)
  }

  /** A record without words takes 48 bytes, and each word 32 more and one for each of its characters. */
  lemma {:induction false} RecordGrows(r: Record, word: string)
    ensures RecordBytes(r.(args := [])) == 48
    ensures RecordBytes(r.(args := r.args + [word])) == RecordBytes(r) + 32 + |word|
    decreases |r.args|
  {
    if r.args == [] {
      assert ([] + [word])[1..] == [];
    } else {
      assert (r.args + [word])[1..] == r.args[1..] + [word];
      RecordGrows(r.(args := r.args[1..]), word);
    }
  }

  function TotalBytes(log: seq<Record>): nat {
    if log == [] then 0 else RecordBytes(log[0]) + TotalBytes(log[1..])
  }

  lemma {:induction false} TotalBytesConcat(a: seq<Record>, b: seq<Record>)
    ensures TotalBytes(a + b) == TotalBytes(a) + TotalBytes(b)
  {
    if a == [] {
      assert a + b == b;
    } else {
      assert (a + b)[1..] == a[1..] + b;
      TotalBytesConcat(a[1..], b);
    }
  }

  lemma TotalBytesSnoc(a: seq<Record>, r: Record)
    ensures TotalBytes(a + [r]) == TotalBytes(a) + RecordBytes(r)
  {
    TotalBytesConcat(a, [r]);
    assert [r][1..] == [];
  }

  /** Write numbers grow by exactly one along the log. */
  predicate Contiguous(log: seq<Record>) {
    forall i :: 0 <= i < |log| ==> log[i].seqNo == log[0].seqNo + i
  }

  function MinSeqNo(log: seq<Record>): nat {
    if log == [] then 0 else log[0].seqNo
  }

  function MaxSeqNo(log: seq<Record>): nat {
    if log == [] then 0 else log[|log| - 1].seqNo
  }

  /** What is left of the log once every leading record numbered at most seqNo is dropped. */
  function TrimThrough(log: seq<Record>, seqNo: nat): (rest: seq<Record>)
    ensures |rest| <= |log|
  {
    if log != [] && log[0].seqNo <= seqNo then TrimThrough(log[1..], seqNo) else log
  }

  /** Trimming leaves a suffix: what went is numbered at most seqNo, and the first record left is not. */
  lemma {:induction false} TrimLeavesSuffix(log: seq<Record>, seqNo: nat)
    ensures var rest := TrimThrough(log, seqNo); var gone := |log| - |rest|;
            && rest == log[gone..]
            && (gone < |log| ==> log[gone].seqNo > seqNo)
            && (forall i :: 0 <= i < gone ==> log[i].seqNo <= seqNo)
  {
    if log != [] && log[0].seqNo <= seqNo {
      TrimLeavesSuffix(log[1..], seqNo);
      var gone := |log| - |TrimThrough(log, seqNo)|;
      assert forall i :: 1 <= i < gone ==> log[i] == log[1..][i - 1];
    }
  }

  /** The records a budgeted copy returns, `taken` being the part of the answer chosen so far. */
  function CopyFrom(log: seq<Record>, seqNo: nat, limit: nat, maxBytes: nat, taken: seq<Record>): seq<Record>
    decreases log
  {
    if log == [] then taken
    else if log[0].seqNo <= seqNo then CopyFrom(log[1..], seqNo, limit, maxBytes, taken)
    else if taken != [] && TotalBytes(taken) + RecordBytes(log[0]) > maxBytes then taken
    else
      var more := taken + [log[0]];
      if |more| == limit || TotalBytes(more) >= maxBytes then more
      else CopyFrom(log[1..], seqNo, limit, maxBytes, more)
  }

  function LogAfter(log: seq<Record>, seqNo: nat, limit: nat, maxBytes: nat): seq<Record> {
    if limit == 0 then [] else CopyFrom(log, seqNo, limit, maxBytes, [])
  }

  /** How many leading records of a contiguous log are numbered at most seqNo. */
  function Skipped(log: seq<Record>, seqNo: nat): (n: nat)
    ensures n <= |log|
  {
    if log == [] then 0 else Max(0, Min(|log|, seqNo + 1 - log[0].seqNo))
  }

  /** r is a stretch of log that respects the limit and, unless it is a single record, the byte budget. */
  ghost predicate BudgetedPrefix(r: seq<Record>, log: seq<Record>, limit: nat, maxBytes: nat) {
    && r <= log && |r| <= limit
    && (TotalBytes(r) <= maxBytes || |r| == 1)
    && (log != [] ==> r != [])
    && (|r| == |log| || |r| == limit || TotalBytes(r) >= maxBytes || TotalBytes(r + [log[|r|]]) > maxBytes)
  }

  lemma {:induction false} CopyTakesPrefix(log: seq<Record>, seqNo: nat, limit: nat, maxBytes: nat, taken: seq<Record>)
    requires forall i :: 0 <= i < |log| ==> log[i].seqNo > seqNo
    requires |taken| < limit && (taken != [] ==> TotalBytes(taken) < maxBytes)
    ensures BudgetedPrefix(CopyFrom(log, seqNo, limit, maxBytes, taken), taken + log, limit, maxBytes)
    ensures taken <= CopyFrom(log, seqNo, limit, maxBytes, taken)
  {
    if log == [] {
    } else {
      var more := taken + [log[0]];
      TotalBytesSnoc(taken, log[0]);
      assert more + log[1..] == taken + log;
      if taken == [] || TotalBytes(more) <= maxBytes {
        if |more| < limit && TotalBytes(more) < maxBytes {
          CopyTakesPrefix(log[1..], seqNo, limit, maxBytes, more);
        }
      }
    }
  }

  /** A budgeted copy of a contiguous log: the longest stretch right after seqNo that fits, and never none of it. */
  lemma {:induction false} LogAfterIsBudgetedStretch(log: seq<Record>, seqNo: nat, limit: nat, maxBytes: nat)
    requires Contiguous(log) && limit > 0
    ensures BudgetedPrefix(LogAfter(log, seqNo, limit, maxBytes), log[Skipped(log, seqNo)..], limit, maxBytes)
  {
    if log != [] && log[0].seqNo <= seqNo {
      assert log[1..][Skipped(log[1..], seqNo)..] == log[Skipped(log, seqNo)..];
      LogAfterIsBudgetedStretch(log[1..], seqNo, limit, maxBytes);
    } else {
      CopyTakesPrefix(log, seqNo, limit, maxBytes, []);
      assert [] + log == log == log[0..];
    }
  }

  lemma {:induction false} CopyRespectsLimit(log: seq<Record>, seqNo: nat, limit: nat, maxBytes: nat,
                                             taken: seq<Record>)
    requires |taken| < limit
    ensures |CopyFrom(log, seqNo, limit, maxBytes, taken)| <= limit
  {
    if log == [] {
    } else {
      if log[0].seqNo <= seqNo {
        CopyRespectsLimit(log[1..], seqNo, limit, maxBytes, taken);
      } else if |taken| + 1 < limit {
        CopyRespectsLimit(log[1..], seqNo, limit, maxBytes, taken + [log[0]]);
      }
    }
  }

  class BinlogBuffer {
    var records: seq<Record>
    var retainedBytes: nat

    /** The byte counter is the size of what is retained. */
    ghost predicate Valid()
      reads this
    {
      retainedBytes == TotalBytes(records)
    }

    constructor ()
      ensures Valid() && records == []
    {
      records := [];
      retainedBytes := 0;
    }

    method Append(r: Record)
      requires Valid()
      modifies this
      ensures Valid() && records == old(records) + [r]
    {
      TotalBytesSnoc(records, r);
      retainedBytes := retainedBytes + RecordBytes(r);
      records := records + [r];
    }

    method Clear()
      modifies this
      ensures Valid() && records == []
    {
      records := [];
      retainedBytes := 0;
    }

    method CopyAfter(seqNo: nat, limit: nat, maxBytes: nat) returns (result: seq<Record>)
      ensures result == LogAfter(records, seqNo, limit, maxBytes)
    {
      result := [];
      if limit == 0 {
        return;
      }
      var copiedBytes := 0;
      var i := 0;
      while i < |records|
        invariant 0 <= i <= |records|
        invariant copiedBytes == TotalBytes(result)
        // The subtraction of copiedBytes from maxBytes cannot wrap around.
        invariant result != [] ==> copiedBytes < maxBytes
        invariant CopyFrom(records, seqNo, limit, maxBytes, [])
                  == CopyFrom(records[i..], seqNo, limit, maxBytes, result)
      {
        var record := records[i];
        assert records[i..][0] == record && records[i..][1..] == records[i + 1..];
        if record.seqNo > seqNo {
          var bytes := RecordBytes(record);
          if result != [] && bytes > maxBytes - copiedBytes {
            break;
          }
          TotalBytesSnoc(result, record);
          result := result + [record];
          copiedBytes := copiedBytes + bytes;
          if |result| == limit || copiedBytes >= maxBytes {
            break;
          }
        }
        i := i + 1;
      }
    }

    method AckThroughAndCountBytes(seqNo: nat) returns (removed: nat)
      requires Valid()
      modifies this
      ensures Valid() && records == TrimThrough(old(records), seqNo)
      ensures removed + retainedBytes == old(retainedBytes)
    {
      removed := 0;
      while records != [] && records[0].seqNo <= seqNo
        invariant retainedBytes == old(retainedBytes)
        invariant removed + TotalBytes(records) == retainedBytes
        invariant TrimThrough(records, seqNo) == TrimThrough(old(records), seqNo)
        decreases |records|
      {
        removed := removed + RecordBytes(records[0]);
        records := records[1..];
      }
      retainedBytes := if removed >= retainedBytes then 0 else retainedBytes - removed;
    }
  }
}
