/**
 * The receiving side of a SUB socket: messages leave the fair queue one by one and only those
 * that the trie lets through reach the user.
 */
module XSub {
  import opened Bytes
  import opened Trie
  import T = Trie
  import opened TrieMeaning
  import opened TrieHeap
  import TrieMatch
  import TrieSubscribe
  import TrieUnsubscribe
  import TrieAbsent

  /** A message and the readable memory behind it. */
  datatype Message = Message(body: seq<byte>, behind: seq<byte>)

  datatype SubOption = Subscribe | Unsubscribe | Other

  /** 0, -ENOPROTOOPT, or the code of the trie. */
  datatype OptCode = Fine | NoProtoOpt | Failed(code: int)

  datatype Received = Again | Got(body: seq<byte>)

  ghost predicate Passes(t: Trie, m: Message) {
    TrieMatch.Passes(t, m.body, m.behind)
  }

  ghost function One(t: Trie, m: Message): seq<seq<byte>> {
    if Passes(t, m) then [m.body] else []
  }

  /** The bodies of the messages of a stream that get through, in order. */
  ghost function Passed(t: Trie, stream: seq<Message>): seq<seq<byte>> {
    if stream == [] then [] else One(t, stream[0]) + Passed(t, stream[1..])
  }

  /** The bodies that some held string is a prefix of: what the subscriptions ask for. */
  ghost function Wanted(t: Trie, stream: seq<Message>): seq<seq<byte>> {
    if stream == [] then []
    else (if TrieMatch.Matches(t, stream[0].body) then [stream[0].body] else []) + Wanted(t, stream[1..])
  }

  lemma {:induction false} PassedStep(t: Trie, stream: seq<Message>, k: nat)
    requires k <= |stream| && forall j :: 0 <= j < k ==> !Passes(t, stream[j])
    ensures Passed(t, stream) == Passed(t, stream[k..])
    decreases k
  {
    if k > 0 {
      PassedStep(t, stream[1..], k - 1);
      assert stream[1..][k - 1..] == stream[k..];
    }
  }

  lemma PassedNext(t: Trie, stream: seq<Message>, k: nat)
    requires k < |stream| && (forall j :: 0 <= j < k ==> !Passes(t, stream[j])) && Passes(t, stream[k])
    ensures Passed(t, stream) == [stream[k].body] + Passed(t, stream[k + 1..])
  {
    PassedStep(t, stream, k);
    assert stream[k..][1..] == stream[k + 1..];
  }

  lemma PassedCons(t: Trie, m: Message, rest: seq<Message>)
    ensures Passed(t, [m] + rest) == One(t, m) + Passed(t, rest)
  {
    assert ([m] + rest)[1..] == rest;
  }

  /** Messages that arrive later do not change what is delivered before them. */
  lemma {:induction false} PassedConcat(t: Trie, a: seq<Message>, b: seq<Message>)
    ensures Passed(t, a + b) == Passed(t, a) + Passed(t, b)
    decreases |a|
  {
    if a == [] {
      assert a + b == b;
    } else {
      PassedConcat(t, a[1..], b);
      PassedCons(t, a[0], a[1..] + b);
      assert a + b == [a[0]] + (a[1..] + b);
    }
  }

  lemma {:induction false} WantedAreFewer(t: Trie, stream: seq<Message>)
    ensures |Wanted(t, stream)| <= |Passed(t, stream)|
    decreases |stream|
  {
    if stream != [] { WantedAreFewer(t, stream[1..]); }
  }

  /** The message gets through only because of the memory behind it. */
  ghost predicate ByChance(t: Trie, m: Message) {
    && !TrieMatch.Matches(t, m.body) && TrieMatch.EndsAtNode(t, m.body)
    && TrieMatch.Matches(t, m.body + m.behind)
  }

  lemma PassesWhen(t: Trie, m: Message)
    ensures Passes(t, m) <==> TrieMatch.Matches(t, m.body) || ByChance(t, m)
  {
  }

  ghost predicate NoneByChance(t: Trie, stream: seq<Message>) {
    forall i :: 0 <= i < |stream| ==> !ByChance(t, stream[i])
  }

  lemma NoneByChanceFirst(t: Trie, stream: seq<Message>)
    requires stream != []
    ensures NoneByChance(t, stream) <==> !ByChance(t, stream[0]) && NoneByChance(t, stream[1..])
  {
    var rest := stream[1..];
    forall i | 0 <= i < |stream| ensures i == 0 || stream[i] == rest[i - 1] {}
    if NoneByChance(t, stream) { assert forall i :: 0 <= i < |rest| ==> rest[i] == stream[i + 1]; }
  }

  /** The user gets exactly what the subscriptions ask for, if and only if no message gets through by chance. */
  lemma {:induction false} PassedIsWanted(t: Trie, stream: seq<Message>)
    ensures Passed(t, stream) == Wanted(t, stream) <==> NoneByChance(t, stream)
    decreases |stream|
  {
    if stream != [] {
      var m, rest := stream[0], stream[1..];
      PassedIsWanted(t, rest);
      NoneByChanceFirst(t, stream);
      PassesWhen(t, m);
      WantedAreFewer(t, rest);
      SameFirst(One(t, m), Passed(t, rest),
                if TrieMatch.Matches(t, m.body) then [m.body] else [], Wanted(t, rest));
    }
  }

  lemma SameFirst<T>(a: seq<T>, b: seq<T>, c: seq<T>, d: seq<T>)
    requires c <= a && |d| <= |b|
    ensures a + b == c + d <==> a == c && b == d
  {
    if a + b == c + d {
      assert |a| == |c|;
      assert b == (a + b)[|a|..];
      assert d == (c + d)[|c|..];
    }
  }

  /**
   * What a removal that does not crash comes to: it takes out the string that the node it ends at stands for, or
   * counts out a child that is not there, or changes nothing.
   */
  ghost predicate Removal(t: Trie, data: seq<byte>, code: OptCode, t': Trie)
    requires WellFormed(t)
  {
    var whole := data + TrieAbsent.Left(t, data);
    if Count(t, whole) > 0 then
      code == Fine && forall x :: Count(t', x) == TrieUnsubscribe.AfterUnsubscribe(t, whole, x)
    else if TrieAbsent.MeetsHole(t, data) then
      code == Fine && forall x :: Count(t', x) == Count(t, x)
    else
      t' == t && code == if TrieAbsent.EndsAtRoot(t, data) then Failed(-EINVAL) else Fine
  }

  /** Whether the trie keeps its shape: no count wraps to zero at a leaf, and no missing child is counted out. */
  ghost predicate KeepsShape(t: Trie, option: SubOption, data: seq<byte>)
    requires WellFormed(t)
  {
    match option
    case Subscribe => Count(t, data) == REFCOUNT_MOD - 1 ==> exists c :: HeldBelow(t, data, c)
    case Unsubscribe => Count(t, data + TrieAbsent.Left(t, data)) > 0 || !TrieAbsent.MeetsHole(t, data)
    case Other => true
  }

  function CodeOf(rc: int): OptCode {
    if rc >= 0 then Fine else Failed(rc)
  }

  lemma RemovalIs(t: Trie, data: seq<byte>)
    requires WellFormed(t) && !TrieAbsent.CrashWalk(t, data)
    ensures var r := T.Unsubscribe(t, data);
            && r.Done? && Removal(t, data, CodeOf(r.rc), r.trie)
            && (WellFormed(r.trie) <==> KeepsShape(t, Unsubscribe, data))
  {
    TrieAbsent.EveryRemoval(t, data);
  }

  class SubSocket {
    var trie: SubscriptionTrie
    /** The messages the fair queue will hand out, in the order it will do so. */
    var inbox: seq<Message>

    ghost predicate Valid()
      reads this, trie, trie.root, ReprOf(trie.root)
    {
      trie.Linked() && WellFormed(trie.Tree())
    }

    constructor ()
      ensures Valid() && inbox == [] && forall x :: Count(trie.Tree(), x) == 0
    {
      trie := new SubscriptionTrie();
      inbox := [];
    }

    /** nn_xsub_setopt, wherever a removal does not crash. */
    method SetOpt(subLevel: bool, option: SubOption, data: seq<byte>) returns (rc: OptCode)
      requires Valid()
      requires subLevel && option.Unsubscribe? ==> !TrieAbsent.CrashWalk(trie.Tree(), data)
      modifies trie, ReprOf(trie.root)
      ensures trie == old(trie) && inbox == old(inbox) && trie.Linked()
      ensures Valid() <==> (subLevel ==> KeepsShape(old(trie.Tree()), option, data))
      ensures rc.NoProtoOpt? <==> !subLevel || option.Other?
      ensures rc.NoProtoOpt? ==> trie.Tree() == old(trie.Tree())
      ensures subLevel && option.Subscribe? ==>
                && rc == Fine
                && forall x :: Count(trie.Tree(), x) == TrieSubscribe.AfterSubscribe(old(trie.Tree()), data, x)
      ensures subLevel && option.Unsubscribe? ==> Removal(old(trie.Tree()), data, rc, trie.Tree())
    {
      if !subLevel { return NoProtoOpt; }
      ghost var was := trie.Tree();
      if option.Unsubscribe? { RemovalIs(was, data); }
      match option {
        case Subscribe =>
          var code := trie.Subscribe(data);
          rc := CodeOf(code);
        case Unsubscribe =>
          var code := trie.Unsubscribe(data);
          rc := CodeOf(code);
        case Other => rc := NoProtoOpt;
      }
    }

    /** nn_xsub_recv: drop messages until the trie lets one through. */
    method Recv() returns (r: Received)
      requires Valid()
      modifies this`inbox
      ensures Valid() && trie.Tree() == old(trie.Tree())
      ensures r.Again? ==> inbox == [] && Passed(trie.Tree(), old(inbox)) == []
      ensures r.Got? ==>
                && Passed(trie.Tree(), old(inbox)) == [r.body] + Passed(trie.Tree(), inbox)
                && exists k :: 0 <= k < |old(inbox)| && old(inbox)[k].body == r.body
                               && Passes(trie.Tree(), old(inbox)[k]) && inbox == old(inbox)[k + 1..]
    {
      ghost var t, stream, k := trie.Tree(), inbox, 0;
      while true
        invariant Valid() && trie == old(trie) && trie.Tree() == t
        invariant k <= |stream| && inbox == stream[k..]
        invariant forall j :: 0 <= j < k ==> !Passes(t, stream[j])
        decreases |inbox|
      {
        if |inbox| == 0 {
          PassedStep(t, stream, k);
          return Again;
        }
        var msg := inbox[0];
        inbox := inbox[1..];
        assert msg == stream[k] && inbox == stream[k + 1..];
        var found := trie.Match(msg.body, msg.behind);
        if found {
          PassedNext(t, stream, k);
          return Got(msg.body);
        }
        k := k + 1;
      }
    }
  }
}
