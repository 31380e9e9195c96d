/** Fan-out: select the recipients, push the new message to each, and
    delete the connections the push channel reports as gone. */
module Dispatcher {
  import opened ChatTypes
  import opened Store

  const MESSAGE_RECEIVED := "messageReceived"

  /** The scan filter `groupId = :groupId AND userId IN (:users)`. */
  predicate Matches(conn: Connection, groupId: GroupId, users: seq<UserId>)
  {
    conn.groupId == groupId && conn.userId in users
  }

  /** The keys of the connections the scan returns. */
  function ScanItems(connections: map<ConnId, Connection>, groupId: GroupId, users: seq<UserId>): set<ConnId>
  {
    set c | c in connections && Matches(connections[c], groupId, users)
  }

  /** What is posted to a recipient; `sentAt` is the clock reading taken
      while that push is built, not the one stored in the log. */
  function PayloadFor(req: Request, sentAt: Timestamp): Payload
  {
    Payload(MESSAGE_RECEIVED, Entry(req.userId, req.message, sentAt), req.groupId)
  }

  /** The scanned items other than the sender whose push reports "gone". */
  function Stale(items: set<ConnId>, sender: ConnId, push: ConnId -> PushResult): set<ConnId>
  {
    set c | c in items && c != sender && IsGone(push(c))
  }

  ghost predicate NoDuplicates(s: seq<ConnId>)
  {
    forall i, j :: 0 <= i < j < |s| ==> s[i] != s[j]
  }

  /** `pushes` posts to every connection of `targets` exactly once, to
      nothing else, and always the payload built for that connection. */
  ghost predicate PushesExactly(pushes: seq<Push>, targets: set<ConnId>, req: Request, clock: ConnId -> Timestamp)
  {
    && (forall i :: 0 <= i < |pushes| ==>
          pushes[i].connectionId in targets && pushes[i].data == PayloadFor(req, clock(pushes[i].connectionId)))
    && (forall c :: c in targets ==> exists i :: 0 <= i < |pushes| && pushes[i].connectionId == c)
    && (forall i, j :: 0 <= i < j < |pushes| ==> pushes[i].connectionId != pushes[j].connectionId)
  }

  /** The connections table after the items of `order` were handled one
      after another in that order: skip the sender, delete on "gone". */
  function Prune(connections: map<ConnId, Connection>, order: seq<ConnId>, sender: ConnId,
                 push: ConnId -> PushResult): map<ConnId, Connection>
  {
    if order == [] then connections
    else
      var before := Prune(connections, order[..|order| - 1], sender, push);
      var c := order[|order| - 1];
      if c != sender && IsGone(push(c)) then before - {c} else before
  }

  /** The posts made when the items of `order` are handled in that order. */
  function Pushes(order: seq<ConnId>, sender: ConnId, req: Request, clock: ConnId -> Timestamp): seq<Push>
  {
    if order == [] then []
    else
      var before := Pushes(order[..|order| - 1], sender, req, clock);
      var c := order[|order| - 1];
      if c != sender then before + [Push(c, PayloadFor(req, clock(c)))] else before
  }

  /** Handling the items in any order deletes exactly the handled non-sender
      items that reported "gone", and touches no other entry. Deleting by
      key is idempotent, so repeated items do not matter. */
  lemma {:induction false} PruneRemovesExactlyGone(connections: map<ConnId, Connection>, order: seq<ConnId>,
                                                    sender: ConnId, push: ConnId -> PushResult)
    ensures Prune(connections, order, sender, push)
              == connections - (set c | c in order && c != sender && IsGone(push(c)))
  {
    if order != [] {
      var init := order[..|order| - 1];
      PruneRemovesExactlyGone(connections, init, sender, push);
      assert forall c :: c in order <==> c in init || c == order[|order| - 1];
    }
  }

  /** The pruned table does not depend on the order the pushes completed in. */
  lemma PruneOrderIrrelevant(connections: map<ConnId, Connection>, order1: seq<ConnId>, order2: seq<ConnId>,
                             sender: ConnId, push: ConnId -> PushResult)
    requires forall c :: c in order1 <==> c in order2
    ensures Prune(connections, order1, sender, push) == Prune(connections, order2, sender, push)
  {
    PruneRemovesExactlyGone(connections, order1, sender, push);
    PruneRemovesExactlyGone(connections, order2, sender, push);
    assert (set c | c in order1 && c != sender && IsGone(push(c)))
        == (set c | c in order2 && c != sender && IsGone(push(c)));
  }

  /** Handling distinct items in order posts once to each of them except
      the sender, and to nothing else. */
  lemma {:induction false} PushesReachEachTargetOnce(order: seq<ConnId>, sender: ConnId, req: Request,
                                                      clock: ConnId -> Timestamp)
    requires NoDuplicates(order)
    ensures PushesExactly(Pushes(order, sender, req, clock), (set c | c in order && c != sender), req, clock)
  {
    if order != [] {
      var init := order[..|order| - 1];
      var last := order[|order| - 1];
      PushesReachEachTargetOnce(init, sender, req, clock);
      var before := Pushes(init, sender, req, clock);
      assert last !in init by {
        forall i | 0 <= i < |init| ensures init[i] != last {
          assert order[i] == init[i];
        }
      }
      var targets := set c | c in order && c != sender;
      var initTargets := set c | c in init && c != sender;
      assert forall c :: c in order <==> c in init || c == last;
      if last == sender {
        assert targets == initTargets;
      } else {
        var after := before + [Push(last, PayloadFor(req, clock(last)))];
        assert targets == initTargets + {last};
        forall c | c in targets ensures exists i :: 0 <= i < |after| && after[i].connectionId == c {
          if c == last {
            assert after[|before|].connectionId == c;
          } else {
            var i :| 0 <= i < |before| && before[i].connectionId == c;
            assert after[i].connectionId == c;
          }
        }
      }
    }
  }

  /** The connections posted to. */
  function PostedTo(pushes: seq<Push>): set<ConnId>
  {
    set i | 0 <= i < |pushes| :: pushes[i].connectionId
  }

  /** Posts that each reach a connection of `targets` once cover it
      exactly, so there is one post per recipient. */
  lemma {:induction false} OnePostPerTarget(pushes: seq<Push>, targets: set<ConnId>, req: Request,
                                            clock: ConnId -> Timestamp)
    requires PushesExactly(pushes, targets, req, clock)
    ensures PostedTo(pushes) == targets
    ensures |pushes| == |targets|
  {
    if pushes == [] {
      assert targets == {};
    } else {
      var init := pushes[..|pushes| - 1];
      var last := pushes[|pushes| - 1].connectionId;
      var rest := targets - {last};
      forall c | c in rest ensures exists i :: 0 <= i < |init| && init[i].connectionId == c {
        var i :| 0 <= i < |pushes| && pushes[i].connectionId == c;
        assert init[i].connectionId == c;
      }
      OnePostPerTarget(init, rest, req, clock);
      assert PostedTo(pushes) == PostedTo(init) + {last};
    }
  }

  /** The fan-out over the scanned `items`. Each item is picked in no fixed
      order, which stands for both the scan's order and the interleaving of
      the concurrent posts; `push` is what the channel reports for a post
      and `clock` the time read while its payload is built. */
  method Broadcast(store: ChatStore, req: Request, items: set<ConnId>, sender: ConnId,
                   clock: ConnId -> Timestamp, push: ConnId -> PushResult)
    returns (pushes: seq<Push>)
    modifies store`connections
    ensures store.connections == old(store.connections) - Stale(items, sender, push)
    ensures PushesExactly(pushes, items - {sender}, req, clock)
  {
    ghost var order: seq<ConnId> := [];
    var pending := items;
    pushes := [];
    while pending != {}
      invariant pending <= items
      invariant forall c :: c in order <==> c in items && c !in pending
      invariant NoDuplicates(order)
      invariant store.connections == Prune(old(store.connections), order, sender, push)
      invariant pushes == Pushes(order, sender, req, clock)
      decreases pending
    {
      var c :| c in pending;
      if c != sender {
        pushes := pushes + [Push(c, PayloadFor(req, clock(c)))];
        if IsGone(push(c)) {
          store.DeleteConnection(c);
        }
      }
      assert (order + [c])[..|order + [c]| - 1] == order;
      order := order + [c];
      pending := pending - {c};
    }
    PruneRemovesExactlyGone(old(store.connections), order, sender, push);
    assert (set c | c in order && c != sender && IsGone(push(c))) == Stale(items, sender, push);
    PushesReachEachTargetOnce(order, sender, req, clock);
    assert (set c | c in order && c != sender) == items - {sender};
  }
}
