/**
 * The pending table of the transport and its reply channels (runtime/internal/mcp/transport.go:276-292,
 * 358-371, 435-449), changed in place. A send needs room in the channel: that every call here meets that
 * precondition is the proof that none blocks.
 */
module TransportTable {
  import opened Wrappers
  import opened Transport

  /** A channel buffered by one. */
  class Channel {
    var buffer: Option<Reply>
    var sends: nat

    constructor ()
      ensures buffer.None? && sends == 0
    {
      buffer := None;
      sends := 0;
    }

    method Send(reply: Reply)
      requires buffer.None?
      modifies this
      ensures buffer == Some(reply) && sends == old(sends) + 1
    {
      buffer := Some(reply);
      sends := sends + 1;
    }
  }

  class Table {
    var pending: map<string, Channel>

    /** Channels in the table are distinct and were never sent to. */
    ghost predicate Valid()
      reads this, pending.Values
    {
      && (forall k | k in pending :: pending[k].buffer.None? && pending[k].sends == 0)
      && (forall j, k | j in pending && k in pending && pending[j] == pending[k] :: j == k)
    }

    constructor ()
      ensures pending == map[] && Valid()
    {
      pending := map[];
    }

    method Register(key: string) returns (ch: Channel)
      requires Valid() && key !in pending
      modifies this
      ensures Valid() && fresh(ch) && pending == old(pending)[key := ch]
    {
      ch := new Channel();
      pending := pending[key := ch];
    }

    /** What a Request's deferred cleanup does. */
    method Remove(key: string)
      requires Valid()
      modifies this
      ensures Valid() && pending == old(pending) - {key}
    {
      pending := pending - {key};
    }

    /** Delivers a response to the channel registered for its id, at most once; drops it if there is none. */
    method Route(reply: Reply) returns (delivered: bool)
      requires Valid()
      modifies this, pending.Values
      ensures Valid() && pending == old(pending) - {reply.id}
      ensures delivered <==> reply.id in old(pending)
      ensures delivered ==> old(pending)[reply.id].buffer == Some(reply) && old(pending)[reply.id].sends == 1
      ensures forall k | k in old(pending) && k != reply.id :: unchanged(old(pending)[k])
    {
      delivered := reply.id in pending;
      if delivered {
        var ch := pending[reply.id];
        pending := pending - {reply.id};
        ch.Send(reply);
      }
    }

    method DrainOne(id: string)
      requires Valid() && id in pending
      modifies this, pending[id]
      ensures Valid() && pending == old(pending) - {id}
      ensures old(pending)[id].buffer == Some(Reply(id, "mcp: transport closed")) && old(pending)[id].sends == 1
    {
      var ch := pending[id];
      ch.Send(Reply(id, "mcp: transport closed"));
      pending := pending - {id};
    }

    /** Fails every Request in the table, in any order, each with a reply carrying its own id. */
    method Drain()
      requires Valid()
      modifies this, pending.Values
      ensures pending == map[] && Valid()
      ensures forall k | k in old(pending) ::
                old(pending)[k].buffer == Some(Reply(k, "mcp: transport closed")) && old(pending)[k].sends == 1
    {
      ghost var all := pending;
      while pending != map[]
        invariant pending.Values <= all.Values
        invariant forall k | k in pending :: k in all && pending[k] == all[k]
        invariant Valid()
        invariant forall k | k in all && k !in pending ::
                    all[k].buffer == Some(Reply(k, "mcp: transport closed")) && all[k].sends == 1
        decreases |pending|
      {
        var id :| id in pending;
        RemoveKey(pending, id);
        DrainOne(id);
      }
    }
  }

  lemma RemoveKey(m: map<string, Channel>, k: string)
    requires k in m
    ensures |m - {k}| < |m|
  {
    assert (m - {k}).Keys == m.Keys - {k};
    assert |(m - {k}).Keys| == |m - {k}| && |m.Keys| == |m|;
  }
}
