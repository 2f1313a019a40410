/**
 * A request and its reply over any number of nodes, each with its own table of pipes: where the reply
 * goes at each node, and when it reaches the requester.
 */
module Routes {
  import opened Bytes
  import opened Wire
  import opened Wrappers
  import opened Routing
  import opened RepSocket

  /**
   * A node on the route: the pipe the request came from, the node's table when it did and when the
   * reply comes, and whether the links towards the requester keep header and body apart, either way.
   */
  datatype Node = Node(from: Pipe, before: Table, after: Table, parsedIn: bool, parsedBack: bool)

  /** The request came from a registered pipe; both tables are tables of a replying socket. */
  ghost predicate NodeOk(n: Node) {
    && TableOk(n.before) && TableOk(n.after)
    && n.from in n.before.data && !TopBit(n.before.data[n.from].key)
  }

  ghost predicate RouteOk(nodes: seq<Node>) {
    forall i :: 0 <= i < |nodes| ==> NodeOk(nodes[i])
  }

  /** The pipe is still registered, under the key it had, and ready. */
  ghost predicate StillThere(n: Node)
    requires NodeOk(n)
  {
    && n.from in n.after.data
    && n.after.data[n.from].key == n.before.data[n.from].key
    && n.after.data[n.from].out
  }

  ghost predicate AllThere(nodes: seq<Node>)
    requires RouteOk(nodes)
  {
    forall i :: 0 <= i < |nodes| ==> StillThere(nodes[i])
  }

  ghost function HopOf(n: Node): Hop
    requires NodeOk(n)
  {
    Hop(n.before.data[n.from].key, n.parsedIn, n.parsedBack)
  }

  ghost function HopsOf(nodes: seq<Node>): (hops: seq<Hop>)
    requires RouteOk(nodes)
    ensures |hops| == |nodes| && forall i :: 0 <= i < |nodes| ==> hops[i] == HopOf(nodes[i])
  {
    seq(|nodes|, i requires 0 <= i < |nodes| && RouteOk(nodes) => HopOf(nodes[i]))
  }

  /**
   * The reply on its way back, nearest node last: each node sends it by the pipe that its table has for
   * the key on top, and the neighbour's raw socket receives it.  The result is what the requester's raw
   * socket delivers, and the pipes, in order.
   */
  ghost function Return(nodes: seq<Node>, m: Message): Option<(Message, seq<Pipe>)>
    decreases |nodes|
  {
    if nodes == [] then Some((m, []))
    else
      var last := nodes[|nodes| - 1];
      var sent := XRepSend(last.after, m);
      if sent.None? then None
      else
        var r := XReqRecv(Carry(sent.value.1, last.parsedBack));
        if r.None? then None
        else
          var rest := Return(nodes[..|nodes| - 1], r.value);
          if rest.None? then None else Some((rest.value.0, [sent.value.0] + rest.value.1))
  }

  /** The pipes the request came from, the last node's first. */
  function PipesOf(nodes: seq<Node>): seq<Pipe> {
    if nodes == [] then [] else [nodes[|nodes| - 1].from] + PipesOf(nodes[..|nodes| - 1])
  }

  lemma HopsOfLast(nodes: seq<Node>)
    requires RouteOk(nodes) && nodes != []
    ensures HopsOf(nodes)[..|nodes| - 1] == HopsOf(nodes[..|nodes| - 1])
    ensures HopsOf(nodes)[|nodes| - 1] == HopOf(nodes[|nodes| - 1])
  {
  }

  lemma SameHead<T>(a: T, b: T, s: seq<T>, t: seq<T>)
    ensures [a] + s == [b] + t <==> a == b && s == t
  {
    if [a] + s == [b] + t {
      assert ([a] + s)[0] == a && ([b] + t)[0] == b;
      assert ([a] + s)[1..] == s && ([b] + t)[1..] == t;
    }
  }

  /** The rest of a reply's way, seen from the last node. */
  ghost predicate PopsKeys(hops: seq<Hop>, m: Message, r: Message) {
    Backward(hops, m) == Some((r, KeysOf(hops)))
  }

  ghost predicate TakesPipes(nodes: seq<Node>, m: Message, r: Message) {
    Return(nodes, m) == Some((r, PipesOf(nodes)))
  }

  /** What the neighbour of a node makes of a message whose top key has been popped. */
  function Received(m: Message, parsedBack: bool): Option<Message> {
    if PopKey(m).None? then None else XReqRecv(Carry(PopKey(m).value.1, parsedBack))
  }

  lemma PopsStep(hops: seq<Hop>, m: Message, r: Message)
    requires hops != []
    ensures var n := |hops| - 1;
            var next := Received(m, hops[n].parsedBack);
            PopsKeys(hops, m, r) <==>
              next.Some? && PopKey(m).value.0 == hops[n].key && PopsKeys(hops[..n], next.value, r)
  {
    var n := |hops| - 1;
    KeysOfLast(hops);
    var next := Received(m, hops[n].parsedBack);
    if next.Some? {
      var rest := Backward(hops[..n], next.value);
      if rest.Some? { SameHead(PopKey(m).value.0, hops[n].key, rest.value.1, KeysOf(hops[..n])); }
    }
  }

  lemma TakesStep(nodes: seq<Node>, m: Message, r: Message)
    requires RouteOk(nodes) && nodes != []
    ensures var n := |nodes| - 1;
            var last := nodes[n];
            var next := Received(m, last.parsedBack);
            TakesPipes(nodes, m, r) <==>
              && next.Some? && XRepSend(last.after, m).Some? && XRepSend(last.after, m).value.0 == last.from
              && TakesPipes(nodes[..n], next.value, r)
  {
    var n := |nodes| - 1;
    var last := nodes[n];
    var sent, next := XRepSend(last.after, m), Received(m, last.parsedBack);
    SendBy(last.after, m, last.from);
    if sent.Some? && next.Some? {
      var rest := Return(nodes[..n], next.value);
      if rest.Some? { SameHead(sent.value.0, last.from, rest.value.1, PipesOf(nodes[..n])); }
    }
  }

  /** With every pipe in place the reply takes the pipes exactly when each node pops its own key. */
  lemma {:induction false} FollowsKeys(nodes: seq<Node>, m: Message, r: Message)
    requires RouteOk(nodes) && AllThere(nodes)
    ensures TakesPipes(nodes, m, r) <==> PopsKeys(HopsOf(nodes), m, r)
    decreases |nodes|
  {
    if nodes != [] {
      var n := |nodes| - 1;
      var last := nodes[n];
      HopsOfLast(nodes);
      PopsStep(HopsOf(nodes), m, r);
      TakesStep(nodes, m, r);
      SendBy(last.after, m, last.from);
      assert StillThere(last);
      if Received(m, last.parsedBack).Some? { FollowsKeys(nodes[..n], Received(m, last.parsedBack).value, r); }
    }
  }

  /** Where each node pops its own key the reply takes the pipes exactly when all are in place. */
  lemma {:induction false} NeedsPipes(nodes: seq<Node>, m: Message, r: Message)
    requires RouteOk(nodes) && PopsKeys(HopsOf(nodes), m, r)
    ensures TakesPipes(nodes, m, r) <==> AllThere(nodes)
    decreases |nodes|
  {
    if nodes != [] {
      var n := |nodes| - 1;
      var last := nodes[n];
      HopsOfLast(nodes);
      PopsStep(HopsOf(nodes), m, r);
      TakesStep(nodes, m, r);
      SendBy(last.after, m, last.from);
      NeedsPipes(nodes[..n], Received(m, last.parsedBack).value, r);
      assert AllThere(nodes) <==> AllThere(nodes[..n]) && StillThere(last);
    }
  }

  /** The message the last node holds once the request has come all the way. */
  ghost function Arrive(nodes: seq<Node>, m: Message): Option<Message>
    requires RouteOk(nodes)
  {
    Forward(HopsOf(nodes), m)
  }

  /**
   * A reply to a request that has come over the nodes leaves each node by exactly the pipe the request
   * came in by and reaches the requester under its own identifier: with the pipes still registered and
   * ready, exactly when headers stay apart; and with headers staying apart, exactly when all pipes are.
   */
  lemma ReplyReturns(nodes: seq<Node>, bottom: word, request: seq<byte>, reply: seq<byte>)
    requires RouteOk(nodes) && TopBit(bottom)
    ensures Arrive(nodes, Message(PutL(bottom), request)).Some?
    ensures var held := Arrive(nodes, Message(PutL(bottom), request)).value;
            var back := Return(nodes, Message(held.sphdr, reply));
            var home := Some((Message(PutL(bottom), reply), PipesOf(nodes)));
            && held.body == request
            && (AllThere(nodes) ==> (back == home <==> HeadersStayApart(HopsOf(nodes))))
            && (HeadersStayApart(HopsOf(nodes)) ==> (back == home <==> AllThere(nodes)))
  {
    var hops := HopsOf(nodes);
    RequestAndReply(hops, bottom, request, reply);
    var m := Message(Stack(KeysOf(hops), bottom), reply);
    if AllThere(nodes) { FollowsKeys(nodes, m, Message(PutL(bottom), reply)); }
    if HeadersStayApart(hops) { NeedsPipes(nodes, m, Message(PutL(bottom), reply)); }
  }
}
