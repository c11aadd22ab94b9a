/**
 * The conversation object built from page messages (`_chatgpt_build_export_conversation_object_from_dom_messages` in
 * `chatgpt_web_mcp/_answers.py`): a tree of nodes linked by ids, one node per kept message.
 */
module ExportChain {
  import opened Wrappers
  import opened Text

  datatype DomMessage = DomMessage(role: string, text: string)

  datatype Exported = Exported(role: string, text: string)

  datatype Node = Node(message: Option<Exported>, parent: Option<string>, children: seq<string>)

  datatype Conversation = Conversation(mapping: map<string, Node>, currentNode: string)

  const ROOT := "client-created-root"

  function RoleOf(m: DomMessage): string {
    Lower(Strip(m.role))
  }

  predicate IsKept(m: DomMessage) {
    RoleOf(m) != "" || !IsBlank(m.text)
  }

  function Export(m: DomMessage): Exported {
    Exported(if RoleOf(m) == "" then "assistant" else RoleOf(m), m.text)
  }

  /** The messages a transcript is made of: all but those with neither a role nor a visible text. */
  function Kept(ms: seq<DomMessage>): (k: seq<Exported>)
    ensures |k| <= |ms|
  {
    if ms == [] then []
    else if IsKept(ms[|ms| - 1]) then Kept(ms[..|ms| - 1]) + [Export(ms[|ms| - 1])]
    else Kept(ms[..|ms| - 1])
  }

  /** Messages are kept one by one and in order. */
  lemma {:induction false} KeptConcat(a: seq<DomMessage>, b: seq<DomMessage>)
    ensures Kept(a + b) == Kept(a) + Kept(b)
  {
    if b == [] {
      assert a + b == a;
    } else {
      assert (a + b)[..|a + b| - 1] == a + b[..|b| - 1];
      KeptConcat(a, b[..|b| - 1]);
    }
  }

  /**
   * One message: dropped exactly if it has neither a role nor a visible text, otherwise kept with its text untouched,
   * under its role in lower case, as the assistant's if it has none.
   */
  lemma KeptOne(m: DomMessage)
    ensures var role := Lower(Strip(m.role));
            && (role == "" && Strip(m.text) == "" ==> Kept([m]) == [])
            && (role == "" && Strip(m.text) != "" ==> Kept([m]) == [Exported("assistant", m.text)])
            && (role != "" ==> Kept([m]) == [Exported(role, m.text)])
  {
    assert [m][..0] == [];
    hide Lower;
  }

  /** The `j`-th node of the chain: the root, then one per message. */
  function IdAt(ids: seq<string>, j: nat): string
    requires j <= |ids|
  {
    if j == 0 then ROOT else ids[j - 1]
  }

  predicate FreshIds(ids: seq<string>) {
    && ROOT !in ids
    && forall i, j | 0 <= i < j < |ids| :: ids[i] != ids[j]
  }

  predicate IsLink(c: Conversation, kept: seq<Exported>, ids: seq<string>, j: nat)
    requires j <= |kept| <= |ids|
  {
    && IdAt(ids, j) in c.mapping
    && c.mapping[IdAt(ids, j)]
       == Node(if j == 0 then None else Some(kept[j - 1]),
               if j == 0 then None else Some(IdAt(ids, j - 1)),
               if j < |kept| then [IdAt(ids, j + 1)] else [])
  }

  /** The conversation is one chain from the root to the current node through the kept messages in order. */
  predicate IsChain(c: Conversation, kept: seq<Exported>, ids: seq<string>) {
    && |kept| <= |ids|
    && c.currentNode == IdAt(ids, |kept|)
    && (forall j | 0 <= j <= |kept| :: IsLink(c, kept, ids, j))
    && (forall k | k in c.mapping :: exists j | 0 <= j <= |kept| :: k == IdAt(ids, j))
  }

  lemma EmptyChain(ids: seq<string>)
    ensures IsChain(Conversation(map[ROOT := Node(None, None, [])], ROOT), [], ids)
  {
    var c := Conversation(map[ROOT := Node(None, None, [])], ROOT);
    assert IsLink(c, [], ids, 0) && ROOT == IdAt(ids, 0);
  }

  lemma CurrentIsLast(c: Conversation, kept: seq<Exported>, ids: seq<string>)
    requires IsChain(c, kept, ids) && FreshIds(ids)
    ensures c.currentNode in c.mapping
    ensures |kept| < |ids| ==> c.currentNode != ids[|kept|]
  {
    assert IsLink(c, kept, ids, |kept|);
  }

  /** `ids` are the identifiers the generator will hand out, one after the other. */
  method BuildExport(ms: seq<DomMessage>, ids: seq<string>) returns (c: Conversation)
    requires |ids| >= |ms| && FreshIds(ids)
    ensures IsChain(c, Kept(ms), ids)
  {
    hide Strip, Lower, IsBlank, IsChain, IsLink, IdAt;
    EmptyChain(ids);
    var mapping := map[ROOT := Node(None, None, [])];
    var parentId, currentNode := ROOT, ROOT;
    var used := 0;
    for i := 0 to |ms|
      invariant used == |Kept(ms[..i])| <= i && parentId == currentNode
      invariant IsChain(Conversation(mapping, currentNode), Kept(ms[..i]), ids)
    {
      assert ms[..i + 1][..i] == ms[..i];
      var role := Lower(Strip(ms[i].role));
      if role == "" && IsBlank(ms[i].text) {
        continue;
      }
      ghost var before := Conversation(mapping, currentNode);
      var nodeId := ids[used];
      var message := Exported(if role == "" then "assistant" else role, ms[i].text);
      CurrentIsLast(before, Kept(ms[..i]), ids);
      mapping := mapping[nodeId := Node(Some(message), Some(parentId), [])];
      mapping := mapping[parentId := mapping[parentId].(children := mapping[parentId].children + [nodeId])];
      parentId := nodeId;
      currentNode := nodeId;
      AppendLink(before, Kept(ms[..i]), ids, message, Conversation(mapping, currentNode));
      used := used + 1;
    }
    assert ms[..|ms|] == ms;
    c := Conversation(mapping, currentNode);
  }

  /** Adding a node below the current one extends the chain. */
  lemma AppendLink(c: Conversation, kept: seq<Exported>, ids: seq<string>, m: Exported, after: Conversation)
    requires IsChain(c, kept, ids) && FreshIds(ids) && |kept| < |ids|
    requires c.currentNode in c.mapping
    requires var id := ids[|kept|];
             var parent := c.mapping[c.currentNode];
             && after.currentNode == id
             && c.currentNode != id
             && after.mapping == c.mapping[id := Node(Some(m), Some(c.currentNode), [])]
                                 [c.currentNode := parent.(children := parent.children + [id])]
    ensures IsChain(after, kept + [m], ids)
  {
    var n, longer := |kept|, kept + [m];
    forall j | 0 <= j <= n + 1
      ensures IsLink(after, longer, ids, j)
    {
      if j <= n {
        assert IsLink(c, kept, ids, j);
        assert j < n ==> IdAt(ids, j) != c.currentNode;
        assert IdAt(ids, j) != ids[n];
      }
    }
    forall k | k in after.mapping
      ensures exists j | 0 <= j <= n + 1 :: k == IdAt(ids, j)
    {
      if k in c.mapping {
        var j :| 0 <= j <= n && k == IdAt(ids, j);
      } else {
        assert k == IdAt(ids, n + 1);
      }
    }
  }

  // ---- Reading it back -----------------------------------------------------------------------------

  function MessageAt(c: Conversation, id: string): seq<Exported>
    requires id in c.mapping
  {
    if c.mapping[id].message.Some? then [c.mapping[id].message.value] else []
  }

  /** The messages met by following first children, for at most `steps` links. */
  function Down(c: Conversation, id: string, steps: nat): seq<Exported>
    decreases steps
  {
    if id !in c.mapping then []
    else if steps == 0 || c.mapping[id].children == [] then MessageAt(c, id)
    else MessageAt(c, id) + Down(c, c.mapping[id].children[0], steps - 1)
  }

  /** The messages met by following parents, oldest first. */
  function Up(c: Conversation, id: string, steps: nat): seq<Exported>
    decreases steps
  {
    if id !in c.mapping then []
    else if steps == 0 || c.mapping[id].parent.None? then MessageAt(c, id)
    else Up(c, c.mapping[id].parent.value, steps - 1) + MessageAt(c, id)
  }

  /** The messages from the `j`-th node of a chain on. */
  function From(kept: seq<Exported>, j: nat): seq<Exported>
    requires j <= |kept|
  {
    if j == 0 then kept else kept[j - 1..]
  }

  function Here(kept: seq<Exported>, j: nat): seq<Exported>
    requires j <= |kept|
  {
    if j == 0 then [] else [kept[j - 1]]
  }

  lemma FromOnce(kept: seq<Exported>, j: nat)
    requires j <= |kept|
    ensures From(kept, j) == if j < |kept| then Here(kept, j) + From(kept, j + 1) else Here(kept, j)
  {
  }

  lemma DownOnce(c: Conversation, kept: seq<Exported>, ids: seq<string>, j: nat, steps: nat)
    requires IsChain(c, kept, ids) && j <= |kept| && steps >= |kept| - j
    ensures Down(c, IdAt(ids, j), steps)
            == if j < |kept| then Here(kept, j) + Down(c, IdAt(ids, j + 1), steps - 1) else Here(kept, j)
  {
    assert IsLink(c, kept, ids, j);
    hide IsChain, IdAt;
  }

  lemma {:induction false} DownFrom(c: Conversation, kept: seq<Exported>, ids: seq<string>, j: nat, steps: nat)
    requires IsChain(c, kept, ids) && j <= |kept| && steps >= |kept| - j
    ensures Down(c, IdAt(ids, j), steps) == From(kept, j)
    decreases |kept| - j
  {
    hide IsChain, IsLink, IdAt, Down, From, Here;
    DownOnce(c, kept, ids, j, steps);
    FromOnce(kept, j);
    if j < |kept| {
      DownFrom(c, kept, ids, j + 1, steps - 1);
    }
  }

  lemma UpOnce(c: Conversation, kept: seq<Exported>, ids: seq<string>, j: nat, steps: nat)
    requires IsChain(c, kept, ids) && j <= |kept| && steps >= j
    ensures Up(c, IdAt(ids, j), steps) == if j == 0 then [] else Up(c, IdAt(ids, j - 1), steps - 1) + Here(kept, j)
  {
    assert IsLink(c, kept, ids, j);
    hide IsChain, IdAt;
  }

  lemma {:induction false} UpFrom(c: Conversation, kept: seq<Exported>, ids: seq<string>, j: nat, steps: nat)
    requires IsChain(c, kept, ids) && j <= |kept| && steps >= j
    ensures Up(c, IdAt(ids, j), steps) == kept[..j]
    decreases j
  {
    hide IsChain, IsLink, IdAt, Up;
    UpOnce(c, kept, ids, j, steps);
    if j > 0 {
      UpFrom(c, kept, ids, j - 1, steps - 1);
      assert kept[..j] == kept[..j - 1] + [kept[j - 1]];
    }
  }

  /**
   * Round trip: children from the root, and parents back from the current node, both give exactly the kept messages
   * in order, and both end there, however many more links a reader is ready to follow.
   */
  lemma WalksRecoverMessages(c: Conversation, kept: seq<Exported>, ids: seq<string>, steps: nat)
    requires IsChain(c, kept, ids) && steps >= |kept|
    ensures Down(c, ROOT, steps) == kept
    ensures Up(c, c.currentNode, steps) == kept
  {
    DownFrom(c, kept, ids, 0, steps);
    UpFrom(c, kept, ids, |kept|, steps);
    assert kept[..|kept|] == kept;
  }

  /** The links agree: every node has at most one child, and is a child exactly of the node it names as its parent. */
  lemma LinksAgree(c: Conversation, kept: seq<Exported>, ids: seq<string>)
    requires IsChain(c, kept, ids) && FreshIds(ids)
    ensures forall k | k in c.mapping :: |c.mapping[k].children| <= 1
    ensures forall k | k in c.mapping :: c.mapping[k].parent.None? <==> k == ROOT
    ensures forall k, x | k in c.mapping ::
              x in c.mapping[k].children <==> x in c.mapping && c.mapping[x].parent == Some(k)
  {
    hide FreshIds;
    forall k | k in c.mapping
      ensures |c.mapping[k].children| <= 1
      ensures c.mapping[k].parent.None? <==> k == ROOT
    {
      var j := PlaceOf(c, kept, ids, k);
      DistinctIds(ids, j, 0);
    }
    forall k, x | k in c.mapping
      ensures x in c.mapping[k].children <==> x in c.mapping && c.mapping[x].parent == Some(k)
    {
      var j := PlaceOf(c, kept, ids, k);
      if j < |kept| {
        assert IsLink(c, kept, ids, j + 1);
      }
      if x in c.mapping {
        var i := PlaceOf(c, kept, ids, x);
        if i > 0 {
          DistinctIds(ids, i - 1, j);
        }
      }
    }
  }

  lemma PlaceOf(c: Conversation, kept: seq<Exported>, ids: seq<string>, k: string) returns (j: nat)
    requires IsChain(c, kept, ids) && k in c.mapping
    ensures j <= |kept| && k == IdAt(ids, j) && IsLink(c, kept, ids, j)
  {
    j :| 0 <= j <= |kept| && k == IdAt(ids, j);
    assert IsLink(c, kept, ids, j);
  }

  lemma DistinctIds(ids: seq<string>, i: nat, j: nat)
    requires FreshIds(ids) && i <= |ids| && j <= |ids|
    ensures IdAt(ids, i) == IdAt(ids, j) ==> i == j
  {
  }
}
