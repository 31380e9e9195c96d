/** Walk-throughs of the relay's behaviour, derived from the handler's
    contract alone. */
module Scenarios {
  import opened ChatTypes
  import opened Store
  import opened Dispatcher
  import opened Relay

  /** Group g1 has members u1 and u2, both connected, with connections c1
      (u1) and c2 (u2). u1 sends "hi" from c1; the post to c2 reports gone. */
  method SenderExcludedAndGoneConnectionPruned(now: Timestamp, clock: ConnId -> Timestamp)
  {
    var g1 := Group(["u1", "u2"], ["u1", "u2"], []);
    var store := new ChatStore(map["g1" := g1],
                               map["c1" := Connection("g1", "u1"), "c2" := Connection("g1", "u2")]);
    var push := (c: ConnId) => if c == "c2" then Failed(410) else Delivered;
    var req := Request("g1", "u1", "hi");
    var resp, pushes := SendChatMessage(store, req, "c1", now, clock, push);
    assert resp.statusCode == 200;
    assert |store.groups["g1"].messages| == 1;
    assert store.groups["g1"].messages[0] == Entry("u1", "hi", now);
    var items := ScanItems(map["c1" := Connection("g1", "u1"), "c2" := Connection("g1", "u2")], "g1", ["u1", "u2"]);
    assert "c1" in items && "c2" in items;
    assert items - {"c1"} == {"c2"};
    assert Stale(items, "c1", push) == {"c2"};
    assert store.connections == map["c1" := Connection("g1", "u1")];
    OnePostPerTarget(pushes, {"c2"}, req, clock);
    assert |pushes| == 1 && pushes[0] == Push("c2", PayloadFor(req, clock("c2")));
  }

  /** A non-member, a member who is not connected, and an unknown group are
      all turned away with nothing written or posted. */
  method RejectionsChangeNothing(now: Timestamp, clock: ConnId -> Timestamp, push: ConnId -> PushResult)
  {
    var g1 := Group(["u1", "u2"], ["u1"], []);
    var conns := map["c1" := Connection("g1", "u1")];
    var store := new ChatStore(map["g1" := g1], conns);
    var resp, pushes := SendChatMessage(store, Request("g1", "u3", "hi"), "c3", now, clock, push);
    assert resp == Response(403, "User is not a member of the group.") && pushes == [];
    resp, pushes := SendChatMessage(store, Request("g1", "u2", "hi"), "c2", now, clock, push);
    assert resp == Response(403, "User is not connected to the chat.") && pushes == [];
    resp, pushes := SendChatMessage(store, Request("g2", "u1", "hi"), "c1", now, clock, push);
    assert resp == Response(404, "Group not found.") && pushes == [];
    assert store.groups == map["g1" := g1] && store.connections == conns;
  }
}
