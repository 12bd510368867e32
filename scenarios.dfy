/**
  What the model computes on concrete inputs, proved: a wild child reused by a later
  registration, a chain stopped by `Fail`, and a chain in which `Fail` moves the
  cursor back.
 */
module Scenarios {
  import opened Options
  import opened Strings
  import opened Trie
  import opened Contexts
  import opened Chain
  import opened Routing

  /** The `:name` node after registering `/user/:name`, and the `user` node above it. */
  function NameLeaf(): Node { Node("/user/:name", ":name", [], true) }
  function UserNode(): Node { Node("", "user", [NameLeaf()], false) }

  /** The same `:name` node after `/user/:id` is registered too, and the trie then. */
  function IdLeaf(): Node { Node("/user/:id", ":name", [], true) }
  function UserTrie(): Node { Node("", "", [Node("", "user", [IdLeaf()], false)], false) }

  lemma FirstRegistration()
    ensures Insert(Root(), "/user/:name", ["user", ":name"], 0) == Node("", "", [UserNode()], false)
  {
    assert Insert(NewChild(":name"), "/user/:name", ["user", ":name"], 2) == NameLeaf();
    assert Insert(NewChild("user"), "/user/:name", ["user", ":name"], 1) == UserNode();
  }

  lemma SecondRegistrationBelowUser()
    ensures Insert(UserNode(), "/user/:id", ["user", ":id"], 1) == UserTrie().children[0]
  {
    assert FirstMatch([NameLeaf()], ":id") == Some(0) by {
      assert [NameLeaf()][..0] == [];
    }
    assert UserNode().children == [NameLeaf()];
  }

  /** Registering `/user/:id` after `/user/:name` goes through the `:name` child and
      overwrites its pattern: no `:id` child is created. */
  lemma WildChildReused()
    ensures Insert(Insert(Root(), "/user/:name", ["user", ":name"], 0), "/user/:id", ["user", ":id"], 0) == UserTrie()
  {
    FirstRegistration();
    SecondRegistrationBelowUser();
    assert FirstMatch([UserNode()], "user") == Some(0) by {
      assert [UserNode()][..0] == [];
    }
  }

  lemma SearchAtLeaf()
    ensures SearchNode(IdLeaf(), ["user", "bob"], 2) == Some(IdLeaf())
  {
  }

  lemma SearchBelowUser()
    ensures SearchNode(UserTrie().children[0], ["user", "bob"], 1) == Some(IdLeaf())
  {
    var sp := ["user", "bob"];
    var user := UserTrie().children[0];
    assert user.children == [IdLeaf()] && !IsCatchAll(user.part) && sp[1] == "bob";
    assert MatchingChildren([IdLeaf()], "bob") == [IdLeaf()] by {
      assert [IdLeaf()][..0] == [];
    }
    SearchAtLeaf();
    assert SearchList(user, [IdLeaf()], sp, 2) == Some(IdLeaf());
  }

  lemma SearchUserBob()
    ensures SearchNode(UserTrie(), ["user", "bob"], 0) == Some(IdLeaf())
  {
    var sp := ["user", "bob"];
    var user := UserTrie().children[0];
    assert UserTrie().children == [user] && !IsCatchAll(UserTrie().part) && sp[0] == "user";
    assert MatchingChildren([user], "user") == [user] by {
      assert [user][..0] == [];
    }
    SearchBelowUser();
    assert SearchList(UserTrie(), [user], sp, 1) == Some(IdLeaf());
  }

  lemma ParseUserPaths()
    ensures Parse("/user/bob") == ["user", "bob"] && Parse("/user/:id") == ["user", ":id"]
  {
    ParseOfSegments(["user", "bob"]);
    assert "/user/bob" == "/" + Join(["user", "bob"], '/');
    ParseOfSegments(["user", ":id"]);
    assert "/user/:id" == "/" + Join(["user", ":id"], '/');
  }

  /** With that trie, a request `/user/bob` binds `id` (the pattern registered last), not `name`. */
  lemma LastRegistrationBinds()
    ensures RootsOK(map["GET" := UserTrie()])
    ensures Route(map["GET" := UserTrie()], "GET", "/user/bob") == Some(Match(IdLeaf(), map["id" := "bob"]))
  {
    UserTrieOK();
    ParseUserPaths();
    SearchUserBob();
    BindUserId();
  }

  lemma UserTrieOK()
    ensures RootsOK(map["GET" := UserTrie()])
  {
    UserTrieDepth();
    UserTrieWild();
  }

  lemma UserTrieDepth()
    ensures DepthOK(UserTrie(), 0)
  {
    assert |Parse(IdLeaf().pattern)| == 2 by {
      ParseUserPaths();
    }
    assert DepthOK(IdLeaf(), 2);
    assert DepthOK(UserTrie().children[0], 1);
  }

  lemma UserTrieWild()
    ensures WildOK(UserTrie())
  {
    assert WildOK(IdLeaf());
    assert WildOK(UserTrie().children[0]);
  }

  lemma BindUserId()
    ensures Bind(["user", ":id"], ["user", "bob"], 0, map[]) == map["id" := "bob"]
  {
    assert ":id"[1..] == "id";
  }

  /** Three handlers: A wraps the rest with "pre"/"post", B calls `Fail(500, ...)`, and H
      would emit "H". */
  function FailChain(): seq<Handler>
  {
    [Around("A-pre", "A-post"), [Fail(500, "boom")], [Emit("H")]]
  }

  /** `Fail` in B: H never starts, A's code after its `Next` still runs, and the
      status is 500. */
  lemma FailInMiddle()
    ensures var r := NextState(FailChain(), Fresh());
            r.status == 500 && 2 !in Starts(r.trace) &&
            r.trace == [Started(0), Emitted("A-pre"), Started(1), Failed(500, "boom"), Emitted("A-post")]
  {
    var hs := FailChain();
    assert |hs| == 3 && hs[0] == [Emit("A-pre"), CallNext, Emit("A-post")];
    var s0 := ChainState(0, 0, [Started(0)]);
    var s1 := ChainState(0, 0, [Started(0), Emitted("A-pre")]);
    var s2 := ChainState(1, 0, [Started(0), Emitted("A-pre"), Started(1)]);
    var s3 := ChainState(3, 500, [Started(0), Emitted("A-pre"), Started(1), Failed(500, "boom")]);
    assert ScriptState(hs, 1, [Fail(500, "boom")], s2) == s3;
    assert LoopState(hs, s2.(trace := s1.trace)) == s3.(index := 4);
    assert NextState(hs, s1) == s3.(index := 4);
    var s4 := s3.(index := 4, trace := s3.trace + [Emitted("A-post")]);
    assert ScriptState(hs, 0, [Emit("A-post")], s3.(index := 4)) == s4;
    assert [CallNext, Emit("A-post")][1..] == [Emit("A-post")];
    assert ScriptState(hs, 0, [CallNext, Emit("A-post")], s1) == s4;
    assert hs[0][1..] == [CallNext, Emit("A-post")];
    assert s0.(trace := s0.trace + [Emitted("A-pre")]) == s1;
    assert ScriptState(hs, 0, hs[0], s0) == s4;
    assert ChainState(0, 0, []).(trace := [] + [Started(0)]) == s0;
    assert LoopState(hs, ChainState(0, 0, [])) == s4.(index := 5);
    FailStopsLaterHandlers(hs, 1);
  }

  /** A calls `Next` and then `Fail`; B calls `Next`; H emits. */
  function LateFailChain(): seq<Handler>
  {
    [[CallNext, Fail(500, "late")], [CallNext], [Emit("H")]]
  }

  /** The cursor is not monotone: when A's `Next` returns, the nested loops have left
      the cursor at 4, one past `len(handlers)`, and A's `Fail` then sets it back to 3.
      No handler runs again, since 3 is still past the last handler. */
  lemma FailMovesCursorBack()
    ensures var hs := LateFailChain();
            var before := NextState(hs, ChainState(0, 0, [Started(0)]));
            before.index == 4 && FailState(hs, before, 500, "late").index == 3 &&
            NextState(hs, Fresh()).index == 4 &&
            Starts(NextState(hs, Fresh()).trace) == [0, 1, 2]
  {
    var hs := LateFailChain();
    assert |hs| == 3;
    var t0 := [Started(0)];
    var t1 := t0 + [Started(1)];
    var t2 := t1 + [Started(2)];
    var t3 := t2 + [Emitted("H")];
    assert ScriptState(hs, 2, [Emit("H")], ChainState(2, 0, t2)) == ChainState(2, 0, t3);
    assert LoopState(hs, ChainState(2, 0, t1)) == ChainState(3, 0, t3);
    assert NextState(hs, ChainState(1, 0, t1)) == ChainState(3, 0, t3);
    assert ScriptState(hs, 1, [CallNext], ChainState(1, 0, t1)) == ChainState(3, 0, t3);
    assert LoopState(hs, ChainState(1, 0, t0)) == ChainState(4, 0, t3);
    assert NextState(hs, ChainState(0, 0, t0)) == ChainState(4, 0, t3);
    var t4 := t3 + [Failed(500, "late")];
    assert ScriptState(hs, 0, [Fail(500, "late")], ChainState(4, 0, t3)) == ChainState(3, 500, t4);
    assert hs[0][1..] == [Fail(500, "late")];
    assert ScriptState(hs, 0, hs[0], ChainState(0, 0, t0)) == ChainState(3, 500, t4);
    assert ChainState(0, 0, []).(trace := [] + [Started(0)]) == ChainState(0, 0, t0);
    assert LoopState(hs, ChainState(0, 0, [])) == ChainState(4, 500, t4);
    assert NextState(hs, Fresh()) == ChainState(4, 500, t4);
    NextStarts(hs, Fresh());
    assert End(hs, 0) == 3 by {
      assert !FailsFirst(hs[2]) && !FailsFirst(hs[1]) && !FailsFirst(hs[0]);
    }
    assert Range(0, 3) == [0, 1, 2];
  }
}
