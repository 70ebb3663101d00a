/** The router, its fields changed in place; each operation is the corresponding step of the state. */
module MessageRouter {
  import opened Base
  import opened Routing
  import opened Wire

  datatype SendError = MessageTooLarge

  class Router {
    const capacity: nat
    var peers: map<Identity, ChannelId>
    var nextHops: map<Identity, ChannelId>
    var relays: set<Identity>
    var queues: map<Identity, seq<Message>>
    /** Channels created so far, and those whose receiver is still alive. */
    var created: nat
    var open: set<ChannelId>
    ghost var owners: seq<Owner>
    ghost var accepted: seq<Message>
    ghost var handed: seq<Handoff>
    ghost var evicted: seq<Message>

    ghost function View(): State
      reads this
    {
      State(capacity, peers, nextHops, relays, queues, owners, open, accepted, handed, evicted)
    }

    ghost predicate Valid()
      reads this
    {
      capacity > 0 && created == |owners| && forall ch :: ch in open ==> ch < created
    }

    constructor (capacity: nat)
      requires capacity > 0
      ensures Valid() && View() == Initial(capacity)
    {
      this.capacity := capacity;
      peers, nextHops, relays, queues := map[], map[], {}, map[];
      created, open := 0, {};
      owners, accepted, handed, evicted := [], [], [], [];
    }

    /** `OfflineQueue::push`, returning the message that had to make room. */
    method PushOffline(m: Message) returns (out: Option<Message>)
      requires Valid()
      modifies this
      ensures Valid() && View() == Push(old(View()), m)
      ensures evicted == old(evicted) + if out.Some? then [out.value] else []
    {
      var queue := if m.recipient in queues then queues[m.recipient] else [];
      queue := queue + [m];
      queues := queues[m.recipient := queue];
      if |queue| > capacity {
        out := Some(queue[0]);
        evicted := evicted + [queue[0]];
        queues := queues[m.recipient := queue[1..]];
      } else {
        out := None;
        assert evicted + [] == evicted;
      }
    }

    /** The set of relays, in an arbitrary order. */
    method RelayOrder() returns (order: seq<Identity>)
      ensures ListsRelays(View(), order)
    {
      order := [];
      var remaining := relays;
      while remaining != {}
        invariant remaining <= relays
        invariant Elements(order) == relays - remaining && |order| == |relays - remaining|
        decreases remaining
      {
        var r :| r in remaining;
        assert Elements(order + [r]) == Elements(order) + {r};
        assert relays - (remaining - {r}) == (relays - remaining) + {r};
        order := order + [r];
        remaining := remaining - {r};
      }
      assert relays - remaining == relays;
    }

    method HandMessage(ch: ChannelId, m: Message)
      requires Valid()
      modifies this`handed
      ensures Valid() && View() == HandOver(old(View()), ch, m)
    {
      handed := handed + [Handoff(ch, m)];
    }

    /** `send`; the returned message, if any, was evicted from a full offline queue. */
    method SendMessage(m: Message) returns (r: Result<Option<Message>, SendError>, ghost order: seq<Identity>)
      requires Valid()
      modifies this
      ensures Valid() && ListsRelays(old(View()), order)
      ensures View() == Next(old(View()), Sending(m, order))
      ensures r.Err? <==> EncodedSize(m) > MAX_MESSAGE_SIZE
      ensures r.Ok? ==> evicted == old(evicted) + if r.value.Some? then [r.value.value] else []
      ensures r.Err? ==> r == Err(MessageTooLarge) && View() == old(View())
      ensures r.Ok? ==> accepted == old(accepted) + [m]
    {
      hide EncodedSize;
      var relayOrder := RelayOrder();
      order := relayOrder;
      if EncodedSize(m) > MAX_MESSAGE_SIZE {
        return Err(MessageTooLarge), order;
      }
      accepted := accepted + [m];
      assert evicted == old(evicted) + [];
      if m.recipient in peers {
        var peer := peers[m.recipient];
        if peer in open {
          HandMessage(peer, m);
          return Ok(None), order;
        }
        peers := peers - {m.recipient};
      }
      if m.recipient in nextHops {
        var hop := nextHops[m.recipient];
        if hop in open {
          HandMessage(hop, m);
          return Ok(None), order;
        }
        nextHops := nextHops - {m.recipient};
      }
      ghost var atRelays := View();
      for k := 0 to |relayOrder|
        invariant Valid() && evicted == old(evicted) && accepted == old(accepted) + [m]
        invariant TryRelays(View(), m, relayOrder[k..]) == TryRelays(atRelays, m, relayOrder)
      {
        SuffixStep(relayOrder, k);
        if relayOrder[k] in nextHops {
          var hop := nextHops[relayOrder[k]];
          if hop in open {
            HandMessage(hop, m);
            return Ok(None), order;
          }
          nextHops := nextHops - {relayOrder[k]};
        }
      }
      var out := PushOffline(m);
      return Ok(out), order;
    }

    /** `register`: a fresh inbox as large as a queue may be, filled with what was queued. */
    method RegisterIdentity(r: Identity) returns (inbox: ChannelId)
      requires Valid()
      modifies this
      ensures Valid() && inbox == old(created)
      ensures View() == Next(old(View()), Registering(r))
      ensures r in peers && peers[r] == inbox && inbox in open
      ensures forall q :: q != r ==> (q in peers <==> q in old(peers)) && (q in peers ==> peers[q] == old(peers)[q])
      ensures nextHops == old(nextHops) && relays == old(relays) && r !in queues
    {
      inbox := created;
      created := created + 1;
      open := open + {inbox};
      owners := owners + [Inbox(r)];
      var queued := if r in queues then queues[r] else [];
      queues := queues - {r};
      var fill := 0;
      for k := 0 to |queued|
        invariant Valid() && fill == (if k <= capacity then k else capacity)
        invariant View() == old(View()).(owners := old(owners) + [Inbox(r)], open := old(open) + {inbox},
                                         queues := old(queues) - {r},
                                         handed := old(handed) + Handoffs(inbox, queued[..fill]))
      {
        if fill < capacity {
          assert Handoffs(inbox, queued[..fill + 1]) ==
            Handoffs(inbox, queued[..fill]) + [Handoff(inbox, queued[fill])];
          HandMessage(inbox, queued[k]);
          fill := fill + 1;
        }
      }
      assert queued[..fill] == Fitting(queued, capacity);
      peers := peers[r := inbox];
    }

    method Unregister(r: Identity)
      requires Valid()
      modifies this`peers
      ensures Valid() && View() == Next(old(View()), Unregistering(r))
      ensures r !in peers
    {
      peers := peers - {r};
    }

    /** Set-up in `pump_connection`: a channel to the remote, installed as its next hop; a dialled remote is a relay. */
    method Connect(remote: Identity, isRelay: bool) returns (link: ChannelId)
      requires Valid()
      modifies this
      ensures Valid() && link == old(created)
      ensures var linked := Next(Next(old(View()), NewLink(remote)), SetNextHop(remote, link));
        View() == if isRelay then Next(linked, SetRelay(remote)) else linked
      ensures remote in nextHops && nextHops[remote] == link && link in open && link !in old(open)
      ensures relays == if isRelay then old(relays) + {remote} else old(relays)
    {
      link := created;
      created := created + 1;
      open := open + {link};
      owners := owners + [Link(remote)];
      nextHops := nextHops[remote := link];
      if isRelay {
        relays := relays + {remote};
      }
    }

    /** Tear-down in `pump_connection`: only the connection that owns the route removes it. */
    method Disconnect(remote: Identity, link: ChannelId, isRelay: bool)
      requires Valid()
      modifies this
      ensures Valid()
      ensures var unlinked := Next(old(View()), RemoveNextHopIfCurrent(remote, link));
        View() == if isRelay then Next(unlinked, RemoveRelay(remote)) else unlinked
      ensures remote in nextHops <==> remote in old(nextHops) && old(nextHops)[remote] != link
      ensures relays == if isRelay then old(relays) - {remote} else old(relays)
    {
      if remote in nextHops && nextHops[remote] == link {
        nextHops := nextHops - {remote};
      }
      if isRelay {
        relays := relays - {remote};
      }
    }

    /** The reading end of a channel goes away. */
    method CloseChannel(ch: ChannelId)
      requires Valid()
      modifies this`open
      ensures Valid() && View() == Next(old(View()), Close(ch))
      ensures open == old(open) - {ch}
    {
      open := open - {ch};
    }

    /** One frame read on the connection to `remote`, whose outgoing channel is `link`: unless this node dialled the
        remote as a relay, the reader drops what does not carry the remote as sender. */
    method ReadInbound(remote: Identity, link: ChannelId, isRelay: bool, m: Message)
      returns (routed: bool, ghost order: seq<Identity>)
      requires Valid()
      modifies this
      ensures Valid() && (routed <==> isRelay || m.sender == remote)
      ensures View() == Inbound(old(View()), remote, link, isRelay, m, order)
      ensures routed ==> ListsRelays(old(View()), order)
      ensures !routed ==> View() == old(View())
      ensures routed && EncodedSize(m) <= MAX_MESSAGE_SIZE ==>
        accepted == old(accepted) + [m.(origin := Frame(link))]
    {
      order := [];
      if !isRelay && m.sender != remote {
        return false, order;
      }
      var r;
      r, order := SendMessage(m.(origin := Frame(link)));
      return true, order;
    }
  }
}
