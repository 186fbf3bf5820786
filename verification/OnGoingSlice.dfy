/** The loops that the frontends run over their `OnGoing` slice: a buffer of which a prefix is in use. */
module OnGoingSlice {
  import opened RegisterMessages
  import opened FrontEndState

  /** Go's `append`: in place while the capacity lasts, otherwise into a larger copy. */
  method Append(buffer: array<OnGoing>, length: nat, e: OnGoing) returns (buffer': array<OnGoing>)
    requires length <= buffer.Length
    modifies buffer
    ensures buffer' == buffer || fresh(buffer')
    ensures length < buffer'.Length
    ensures buffer'[..length + 1] == old(buffer[..length]) + [e]
  {
    buffer' := buffer;
    if length == buffer.Length {
      buffer' := new OnGoing[2 * length + 1](_ => e);
      forall i | 0 <= i < length {
        buffer'[i] := buffer[i];
      }
    }
    buffer'[length] := e;
  }

  /** The filter of `RemoveSession` reuses its own buffer: the write cursor never passes the read cursor. */
  method FilterInPlace(buffer: array<OnGoing>, length: nat, from: Address, s: SessionId)
      returns (write: nat, noMore: bool, found: bool)
    requires length <= buffer.Length
    modifies buffer
    ensures write <= length
    ensures buffer[..write] == Without(old(buffer[..length]), from, s)
    ensures noMore <==> !HasSession(Without(old(buffer[..length]), from, s), s)
    ensures found <==> HasEntry(old(buffer[..length]), from, s)
  {
    ghost var es := buffer[..length];
    ghost var kept: seq<OnGoing> := [];
    write, noMore, found := 0, true, false;
    for read := 0 to length
      invariant |kept| == write <= read
      invariant forall k :: read <= k < length ==> buffer[k] == es[k]
      invariant forall k :: 0 <= k < write ==> buffer[k] == kept[k]
      invariant kept == Without(es[..read], from, s)
      invariant noMore <==> !HasSession(kept, s)
      invariant found <==> HasEntry(es[..read], from, s)
    {
      var on := buffer[read];
      assert on == es[read];
      WithoutStep(es, read, from, s);
      if on.sessionId == s && from == on.register {
        found := true;
      } else {
        noMore := noMore && on.sessionId != s;
        buffer[write] := on;
        write := write + 1;
        kept := kept + [on];
      }
    }
    assert es[..length] == es;
    assert buffer[..write] == kept;
  }

  /** Restarts every overdue entry and returns the requests to send again. */
  method ResendInPlace(buffer: array<OnGoing>, length: nat, at: Time) returns (resend: seq<OutEvent>)
    requires length <= buffer.Length
    modifies buffer
    ensures buffer[..length] == Resend(old(buffer[..length]), at)
    ensures resend == ResendEvents(old(buffer[..length]), at)
  {
    ghost var es := buffer[..length];
    resend := [];
    for i := 0 to length
      invariant forall k :: i <= k < length ==> buffer[k] == es[k]
      invariant buffer[..i] == Resend(es[..i], at)
      invariant resend == ResendEvents(es[..i], at)
    {
      var on := buffer[i];
      assert es[..i + 1][..i] == es[..i];
      if Overdue(on, at) {
        buffer[i] := on.(at := at, numberOfTries := on.numberOfTries + 1);
        resend := resend + [OutEvent(on.register, InternalRequest(on.sessionId, on.request))];
      }
    }
    assert es[..length] == es;
  }
}
