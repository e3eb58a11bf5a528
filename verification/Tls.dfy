/** The TLS library as seen by one connection: the outcomes that its calls may have, and the retry rule that a
    caller must obey. */
module Tls {
  import opened Bytes

  datatype ReadResult = Data(bytes: seq<Byte>) | ReadWantsRead | ReadWantsWrite | ReadFails
  datatype WriteResult = Wrote(n: nat) | WriteWantsRead | WriteWantsWrite | WriteFails
  datatype AcceptResult = Accepted | AcceptWantsRead | AcceptWantsWrite | AcceptFails

  /** One call to SSL_read, or to SSL_write with the bytes offered, and how it went. */
  datatype Call = Read(got: ReadResult) | Write(offered: seq<Byte>, result: WriteResult)

  /** What the last call obliges the caller to do next. */
  datatype Duty = Free | RetryWrite(offered: seq<Byte>) | RetryRead

  function DutyAfter(calls: seq<Call>): Duty {
    if calls == [] then Free
    else match calls[|calls| - 1]
         case Write(offered, WriteWantsRead) => RetryWrite(offered)
         case Write(offered, WriteWantsWrite) => RetryWrite(offered)
         case Read(ReadWantsWrite) => RetryRead
         case _ => Free
  }

  /** An unfinished write must be retried with the same bytes before anything else; a read that waits
      for the socket to become writable must be retried before anything is written. */
  ghost predicate Obeys(duty: Duty, call: Call) {
    match duty
    case Free => true
    case RetryWrite(offered) => call.Write? && call.offered == offered
    case RetryRead => call.Read?
  }

  ghost predicate Disciplined(calls: seq<Call>) {
    forall k :: 0 <= k < |calls| ==> Obeys(DutyAfter(calls[..k]), calls[k])
  }

  lemma DisciplinedSnoc(calls: seq<Call>, call: Call)
    requires Disciplined(calls) && Obeys(DutyAfter(calls), call)
    ensures Disciplined(calls + [call])
  {
  }

  /** The bytes the library has taken over so far. */
  function Written(calls: seq<Call>): seq<Byte> {
    if calls == [] then []
    else Written(calls[..|calls| - 1]) + Taken(calls[|calls| - 1])
  }

  function Taken(call: Call): seq<Byte> {
    if call.Write? && call.result.Wrote? && call.result.n <= |call.offered| then call.offered[..call.result.n] else []
  }

  lemma WrittenSnoc(calls: seq<Call>, call: Call)
    ensures Written(calls + [call]) == Written(calls) + Taken(call)
  {
  }

  /** What the successful reads returned, in order. */
  function Returned(calls: seq<Call>): seq<seq<Byte>> {
    if calls == [] then []
    else
      var last := calls[|calls| - 1];
      Returned(calls[..|calls| - 1]) + (if last.Read? && last.got.Data? then [last.got.bytes] else [])
  }

  lemma ReturnedSnoc(calls: seq<Call>, call: Call)
    ensures call.Read? && call.got.Data? ==> Returned(calls + [call]) == Returned(calls) + [call.got.bytes]
    ensures !(call.Read? && call.got.Data?) ==> Returned(calls + [call]) == Returned(calls)
  {
    assert (calls + [call])[..|calls|] == calls;
  }
}
