// Multicast.Write of internal/api/multicast.go.
module MulticastWrite {
  import opened Wrappers
  import opened KeyTypes
  import opened MulticastProtocol

  datatype WriteError = ShortWrite | Other(code: int)

  // What one writer's Write returns.
  datatype Reply = Reply(n: int, err: Option<WriteError>)

  class Writer {
    var received: seq<Bytes>

    method Write(p: Bytes, reply: Reply) returns (n: int, err: Option<WriteError>)
      modifies this
      ensures received == old(received) + [p] && n == reply.n && err == reply.err
    {
      received := received + [p];
      n, err := reply.n, reply.err;
    }
  }

  // The error that counts for a reply: writing less without an error is one.
  function Fault(p: Bytes, r: Reply): Option<WriteError> {
    if r.err.None? && r.n < |p| then Some(ShortWrite) else r.err
  }

  // Writes to every writer of the snapshot once, whatever the others answer, and reports the first
  // error with the count of the writer that made it.
  method Write(group: seq<Writer>, p: Bytes, replies: seq<Reply>) returns (n: int, err: Option<WriteError>)
    requires Distinct(group) && |replies| == |group|
    modifies group
    ensures forall i :: 0 <= i < |group| ==> group[i].received == old(group[i].received) + [p]
    ensures group == [] ==> n == 0 && err == None
    ensures group != [] && (forall i :: 0 <= i < |replies| ==> Fault(p, replies[i]).None?) ==> n == |p| && err == None
    ensures err.Some? ==> exists i :: 0 <= i < |replies| && Fault(p, replies[i]) == err && n == replies[i].n
                                      && forall j :: 0 <= j < i ==> Fault(p, replies[j]).None?
    ensures err.None? ==> forall i :: 0 <= i < |replies| ==> Fault(p, replies[i]).None?
  {
    n, err := 0, None;
    if |group| == 0 {
      return;
    }
    var i := 0;
    while i < |group|
      invariant 0 <= i <= |group|
      invariant forall j :: 0 <= j < i ==> group[j].received == old(group[j].received) + [p]
      invariant forall j :: i <= j < |group| ==> group[j].received == old(group[j].received)
      invariant err.None? ==> n == 0 && forall j :: 0 <= j < i ==> Fault(p, replies[j]).None?
      invariant err.Some? ==> exists k :: 0 <= k < i && Fault(p, replies[k]) == err && n == replies[k].n
                                          && forall j :: 0 <= j < k ==> Fault(p, replies[j]).None?
    {
      var nn, wErr := group[i].Write(p, replies[i]);
      if wErr.None? && nn < |p| {
        wErr := Some(ShortWrite);
      }
      if err.None? && wErr.Some? {
        err := wErr;
        n := nn;
      }
      i := i + 1;
    }
    if n == 0 && err.None? {
      n := |p|;
    }
  }
}
