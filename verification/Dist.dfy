/**
 * The distributor: sends a copy of a message to every pipe that is ready, with all the references taken at
 * once beforehand.
 */
module Dist {
  import opened ChunkRef
  import opened Wrappers

  type Pipe = nat

  /** What a pipe does with its copy: whether it is to be released, and whether it has given the copy up already. */
  datatype Answer = Answer(release: bool, done: bool)

  /** The pipes that are sent a copy. */
  function Receivers(ps: seq<Pipe>, exclude: int): seq<Pipe> {
    if ps == [] then []
    else Receivers(ps[..|ps| - 1], exclude) + if ps[|ps| - 1] == exclude then [] else [ps[|ps| - 1]]
  }

  predicate Stays(p: Pipe, exclude: int, answers: Pipe -> Answer) {
    p == exclude || !answers(p).release
  }

  predicate Keeps(p: Pipe, exclude: int, answers: Pipe -> Answer) {
    p != exclude && !answers(p).done
  }

  /** The pipes that stay in the list. */
  function Staying(ps: seq<Pipe>, exclude: int, answers: Pipe -> Answer): seq<Pipe> {
    if ps == [] then []
    else
      var n := |ps| - 1;
      Staying(ps[..n], exclude, answers) + if Stays(ps[n], exclude, answers) then [ps[n]] else []
  }

  /** How many copies are with a pipe afterwards. */
  function Kept(ps: seq<Pipe>, exclude: int, answers: Pipe -> Answer): nat {
    if ps == [] then 0
    else
      var n := |ps| - 1;
      Kept(ps[..n], exclude, answers) + if Keeps(ps[n], exclude, answers) then 1 else 0
  }

  /** The calls of nn_pipe_send: the same message to each receiver, in the order of the list. */
  function Copies(ps: seq<Pipe>, m: Message): seq<(Pipe, Message)> {
    seq(|ps|, i requires 0 <= i < |ps| => (ps[i], m))
  }

  /** The items of `a` come in the order in which they are in `b`. */
  ghost predicate InOrder(a: seq<Pipe>, b: seq<Pipe>) {
    forall i, j, k, l :: 0 <= i < j < |a| && 0 <= k < |b| && 0 <= l < |b| && b[k] == a[i] && b[l] == a[j] ==> k < l
  }

  lemma InOrderFurther(a: seq<Pipe>, b: seq<Pipe>, n: nat)
    requires n < |b| && Distinct(b) && InOrder(a, b[..n]) && forall p :: p in a ==> p in b[..n]
    ensures InOrder(a, b[..n + 1]) && InOrder(a + [b[n]], b[..n + 1])
  {
    var c := b[..n + 1];
    forall i, k | 0 <= i < |a| && 0 <= k < |c| && c[k] == a[i] ensures k < n {
      assert a[i] in b[..n];
      var m :| 0 <= m < n && b[m] == a[i];
    }
  }

  /** Exactly the listed pipes but the excluded one are sent a copy, each once, in the order of the list. */
  lemma {:induction false} ReceiversAre(ps: seq<Pipe>, exclude: int)
    requires Distinct(ps)
    ensures forall p: Pipe :: p in Receivers(ps, exclude) <==> p in ps && p != exclude
    ensures Distinct(Receivers(ps, exclude)) && InOrder(Receivers(ps, exclude), ps)
    decreases |ps|
  {
    if ps != [] {
      var n := |ps| - 1;
      ReceiversAre(ps[..n], exclude);
      assert ps == ps[..n] + [ps[n]] == ps[..n + 1];
      assert ps[n] !in ps[..n] && ps[n] !in Receivers(ps[..n], exclude);
      InOrderFurther(Receivers(ps[..n], exclude), ps, n);
      assert Receivers(ps[..n], exclude) + [] == Receivers(ps[..n], exclude);
    }
  }

  /** A pipe stays unless it was sent a copy and asked to be released; the order is that of the list. */
  lemma {:induction false} StayingAre(ps: seq<Pipe>, exclude: int, answers: Pipe -> Answer)
    requires Distinct(ps)
    ensures forall p: Pipe :: p in Staying(ps, exclude, answers) <==> p in ps && (p == exclude || !answers(p).release)
    ensures Distinct(Staying(ps, exclude, answers)) && InOrder(Staying(ps, exclude, answers), ps)
    decreases |ps|
  {
    if ps != [] {
      var n := |ps| - 1;
      StayingAre(ps[..n], exclude, answers);
      assert ps == ps[..n] + [ps[n]] == ps[..n + 1];
      InOrderFurther(Staying(ps[..n], exclude, answers), ps, n);
      assert Staying(ps[..n], exclude, answers) + [] == Staying(ps[..n], exclude, answers);
    }
  }

  /** The pipes that still have a copy: those that were sent one and have not given it up. */
  ghost function Keepers(ps: seq<Pipe>, exclude: int, answers: Pipe -> Answer): set<Pipe> {
    set p | p in ps && p != exclude && !answers(p).done
  }

  lemma OneKeeper(ps: seq<Pipe>, p: Pipe, exclude: int, answers: Pipe -> Answer)
    requires p !in ps
    ensures p !in Keepers(ps, exclude, answers)
    ensures Keepers(ps + [p], exclude, answers) ==
            Keepers(ps, exclude, answers) + if p != exclude && !answers(p).done then {p} else {}
  {
  }

  lemma {:induction false} KeptAre(ps: seq<Pipe>, exclude: int, answers: Pipe -> Answer)
    requires Distinct(ps)
    ensures Kept(ps, exclude, answers) == |Keepers(ps, exclude, answers)|
    decreases |ps|
  {
    if ps == [] {
      assert Keepers(ps, exclude, answers) == {};
    } else {
      var init, p := ps[..|ps| - 1], ps[|ps| - 1];
      assert ps == init + [p];
      KeptAre(init, exclude, answers);
      OneKeeper(init, p, exclude, answers);
    }
  }

  /** One pipe more. */
  lemma Further(all: seq<Pipe>, k: nat, exclude: int, answers: Pipe -> Answer)
    requires k < |all|
    ensures Staying(all[..k + 1], exclude, answers)
         == Staying(all[..k], exclude, answers) + if Stays(all[k], exclude, answers) then [all[k]] else []
    ensures Kept(all[..k + 1], exclude, answers)
         == Kept(all[..k], exclude, answers) + if Keeps(all[k], exclude, answers) then 1 else 0
    ensures Receivers(all[..k + 1], exclude)
         == Receivers(all[..k], exclude) + if all[k] == exclude then [] else [all[k]]
  {
    assert all[..k + 1][..k] == all[..k];
  }

  lemma CopiesAppend(ps: seq<Pipe>, p: Pipe, m: Message)
    ensures Copies(ps + [p], m) == Copies(ps, m) + [(p, m)] && Copies(ps + [], m) == Copies(ps, m)
  {
    assert ps + [] == ps;
  }

  /** The copies that the first `k` pipes keep, and those for the other pipes. */
  function Outstanding(all: seq<Pipe>, k: nat, exclude: int, answers: Pipe -> Answer): nat
    requires k <= |all|
  {
    Kept(all[..k], exclude, answers) + |all| - k
  }

  lemma OneFurther(all: seq<Pipe>, k: nat, m: Message, exclude: int, answers: Pipe -> Answer)
    requires k < |all|
    ensures Outstanding(all, k, exclude, answers) > 0
    ensures Outstanding(all, k + 1, exclude, answers)
         == Outstanding(all, k, exclude, answers) - if Keeps(all[k], exclude, answers) then 0 else 1
    ensures Copies(Receivers(all[..k + 1], exclude), m)
         == Copies(Receivers(all[..k], exclude), m) + if all[k] == exclude then [] else [(all[k], m)]
  {
    Further(all, k, exclude, answers);
    CopiesAppend(Receivers(all[..k], exclude), all[k], m);
  }

  /** Before the first pipe, and after the last one. */
  lemma Ends(all: seq<Pipe>, m: Message, exclude: int, answers: Pipe -> Answer)
    ensures Outstanding(all, 0, exclude, answers) == |all| && all[0..] == all
    ensures Staying(all[..0], exclude, answers) == [] && Copies(Receivers(all[..0], exclude), m) == []
    ensures Outstanding(all, |all|, exclude, answers) == Kept(all, exclude, answers)
    ensures all[..|all|] == all && all[|all|..] == []
  {
    assert all[..0] == [] && all[..|all|] == all;
  }

  lemma OneFewer(held: multiset<nat>, n: nat, ids: multiset<nat>)
    requires n > 0
    ensures held + Times(n, ids) - ids == held + Times(n - 1, ids) && ids <= held + Times(n, ids)
  {
  }

  lemma MinusPlus(held: multiset<nat>, ids: multiset<nat>, copies: multiset<nat>)
    requires ids <= held
    ensures held + copies - ids == held - ids + copies && ids <= held + copies
  {
  }

  /** One of `n` copies is given up. */
  lemma OneLess(h: Heap, held: multiset<nat>, n: nat, m: Message)
    requires Balanced(h, held + Times(n, MsgIds(m))) && n > 0
    ensures Balanced(MsgTerm(h, m), held + Times(n - 1, MsgIds(m))) && SameData(h, MsgTerm(h, m))
  {
    OneFewer(held, n, MsgIds(m));
    MsgTermBalanced(h, held + Times(n, MsgIds(m)), m);
  }

  /** The message itself is given up while `n` copies are left. */
  lemma OriginalGone(h: Heap, held: multiset<nat>, n: nat, m: Message)
    requires Balanced(h, held + Times(n, MsgIds(m))) && MsgIds(m) <= held
    ensures Balanced(MsgTerm(h, m), held - MsgIds(m) + Times(n, MsgIds(m))) && SameData(h, MsgTerm(h, m))
  {
    MinusPlus(held, MsgIds(m), Times(n, MsgIds(m)));
    MsgTermBalanced(h, held + Times(n, MsgIds(m)), m);
  }

  /** What was held before, and `n` copies, are counted; and the data are those of `before`. */
  ghost predicate Holds(h: Heap, n: nat, m: Message, held: multiset<nat>, before: Heap) {
    Balanced(h, held + Times(n, MsgIds(m))) && SameData(before, h)
  }

  lemma GiveUp(h: Heap, n: nat, m: Message, held: multiset<nat>, before: Heap)
    requires Holds(h, n, m, held, before) && n > 0
    ensures Holds(MsgTerm(h, m), n - 1, m, held, before)
  {
    OneLess(h, held, n, m);
    SameDataThrough(before, h, MsgTerm(h, m));
  }

  lemma SameDataThrough(a: Heap, b: Heap, c: Heap)
    requires SameData(a, b) && SameData(b, c)
    ensures SameData(a, c)
  {
  }

  class Distributor {
    var count: nat
    var pipes: seq<Pipe>
    var heap: Heap
    /** The calls of nn_pipe_send so far. */
    ghost var sent: seq<(Pipe, Message)>

    ghost predicate Valid()
      reads this
    {
      count == |pipes| && Distinct(pipes)
    }

    /** nn_dist_init, on a heap. */
    constructor (heap: Heap)
      ensures Valid() && pipes == [] && this.heap == heap && sent == []
    {
      count, pipes, this.heap, sent := 0, [], heap, [];
    }

    /** nn_dist_out. */
    method Out(p: Pipe)
      requires Valid() && p !in pipes
      modifies `count, `pipes
      ensures Valid() && pipes == old(pipes) + [p]
    {
      count := count + 1;
      pipes := pipes + [p];
    }

    /** nn_dist_rm. */
    method Rm(p: Pipe)
      requires Valid()
      modifies `count, `pipes
      ensures Valid() && p !in pipes
      ensures if p in old(pipes) then exists i :: 0 <= i < |old(pipes)| && old(pipes)[i] == p
                                               && pipes == old(pipes)[..i] + old(pipes)[i + 1..]
              else pipes == old(pipes)
    {
      if p in pipes {
        var i :| 0 <= i < |pipes| && pipes[i] == p;
        count := count - 1;
        pipes := pipes[..i] + pipes[i + 1..];
      }
    }

    /** nn_pipe_send, seen from here: the pipe takes the copy and says whether to release it. */
    method PipeSend(p: Pipe, copy: Message, answer: Answer) returns (release: bool)
      modifies `heap, `sent
      ensures sent == old(sent) + [(p, copy)] && release == answer.release
      ensures heap == if answer.done then MsgTerm(old(heap), copy) else old(heap)
    {
      sent := sent + [(p, copy)];
      if answer.done { heap := MsgTerm(heap, copy); }
      return answer.release;
    }

    /** The list in the loop of nn_dist_send after the first `k` pipes of the original list `all`. */
    ghost predicate ListAt(all: seq<Pipe>, k: nat, it: nat, exclude: int, answers: Pipe -> Answer)
      reads `count, `pipes
      requires k <= |all|
    {
      && count == |pipes| && it == |Staying(all[..k], exclude, answers)|
      && pipes == Staying(all[..k], exclude, answers) + all[k..]
    }

    /** The references then: what was held, and `n` copies, with pipes or still to be handed out. */
    ghost predicate HeapAt(n: nat, m: Message, held: multiset<nat>, before: Heap)
      reads `heap
    {
      Holds(heap, n, m, held, before)
    }

    /**
     * nn_dist_send. `held` counts all references to chunks, the message's own among them. Each pipe but the
     * excluded one gets one copy, in order; afterwards the references are those of before without the
     * message's, with one set for each copy that a pipe still has.
     */
    method Send(m: Message, exclude: int, answers: Pipe -> Answer, ghost held: multiset<nat>)
      requires Valid() && Balanced(heap, held) && MsgIds(m) <= held
      modifies this
      ensures Valid()
      ensures sent == old(sent) + Copies(Receivers(old(pipes), exclude), m)
      ensures pipes == Staying(old(pipes), exclude, answers)
      ensures forall p: Pipe :: p in pipes <==> p in old(pipes) && (p == exclude || !answers(p).release)
      ensures Balanced(heap, held - MsgIds(m) + Times(Kept(old(pipes), exclude, answers), MsgIds(m)))
      ensures SameData(old(heap), heap)
    {
      ghost var all := pipes;
      StayingAre(all, exclude, answers);
      if count == 0 {
        MsgTermBalanced(heap, held, m);
        heap := MsgTerm(heap, m);
        assert held - MsgIds(m) + Times(0, MsgIds(m)) == held - MsgIds(m);
        return;
      }
      MsgAddRefBalanced(heap, held, m, count);
      heap := MsgAddRef(heap, m, count);
      Distribute(m, exclude, answers, held, old(heap));
      OriginalGone(heap, held, Kept(all, exclude, answers), m);
      SameDataThrough(old(heap), heap, MsgTerm(heap, m));
      heap := MsgTerm(heap, m);
    }

    /** The loop of nn_dist_send. */
    method Distribute(m: Message, exclude: int, answers: Pipe -> Answer, ghost held: multiset<nat>, ghost before: Heap)
      requires Valid() && HeapAt(|pipes|, m, held, before)
      modifies this
      ensures Valid() && pipes == Staying(old(pipes), exclude, answers)
      ensures sent == old(sent) + Copies(Receivers(old(pipes), exclude), m)
      ensures HeapAt(Kept(old(pipes), exclude, answers), m, held, before)
    {
      ghost var all, k := pipes, 0;
      var it: nat := 0;
      Ends(all, m, exclude, answers);
      while it != |pipes|
        invariant k <= |all| && it <= |pipes|
        invariant ListAt(all, k, it, exclude, answers)
        invariant HeapAt(Outstanding(all, k, exclude, answers), m, held, before)
        invariant SentAt(all, k, m, exclude, old(sent))
        decreases |all| - k
      {
        it := Round(all, k, it, m, exclude, answers, held, before, old(sent));
        k := k + 1;
      }
      assert k == |all|;
      StayingAre(all, exclude, answers);
    }

    ghost predicate SentAt(all: seq<Pipe>, k: nat, m: Message, exclude: int, before: seq<(Pipe, Message)>)
      reads `sent
      requires k <= |all|
    {
      sent == before + Copies(Receivers(all[..k], exclude), m)
    }

    /** The item of the loop is the next pipe of the original list. */
    lemma Here(all: seq<Pipe>, k: nat, it: nat, exclude: int, answers: Pipe -> Answer)
      requires k < |all| && ListAt(all, k, it, exclude, answers)
      ensures it < |pipes| && pipes[it] == all[k]
    {
    }

    /** One round of the loop of nn_dist_send. */
    method Round(ghost all: seq<Pipe>, ghost k: nat, it: nat, m: Message, exclude: int, answers: Pipe -> Answer,
                 ghost held: multiset<nat>, ghost before: Heap, ghost sentBefore: seq<(Pipe, Message)>)
      returns (next: nat)
      requires k < |all| && it < |pipes| && ListAt(all, k, it, exclude, answers)
      requires HeapAt(Outstanding(all, k, exclude, answers), m, held, before)
      requires SentAt(all, k, m, exclude, sentBefore)
      modifies this
      ensures ListAt(all, k + 1, next, exclude, answers) && next <= |pipes|
      ensures HeapAt(Outstanding(all, k + 1, exclude, answers), m, held, before)
      ensures SentAt(all, k + 1, m, exclude, sentBefore)
    {
      Here(all, k, it, exclude, answers);
      var p := pipes[it];
      OneFurther(all, k, m, exclude, answers);
      var release := Deliver(p, m, exclude, answers, Outstanding(all, k, exclude, answers), held, before);
      next := Next(all, k, it, exclude, answers, release);
    }

    /** A copy for one pipe, given up at once for the excluded one; whether the pipe is to be released. */
    method Deliver(p: Pipe, m: Message, exclude: int, answers: Pipe -> Answer, ghost n: nat,
                   ghost held: multiset<nat>, ghost before: Heap)
      returns (release: bool)
      requires HeapAt(n, m, held, before) && n > 0
      modifies `heap, `sent
      ensures HeapAt(if Keeps(p, exclude, answers) then n else n - 1, m, held, before)
      ensures sent == old(sent) + if p == exclude then [] else [(p, m)]
      ensures release <==> !Stays(p, exclude, answers)
    {
      var copy := m;
      GiveUp(heap, n, m, held, before);
      if p == exclude {
        heap := MsgTerm(heap, copy);
        release := false;
      } else {
        release := PipeSend(p, copy, answers(p));
      }
    }

    /** On to the next item of the list; a released one is erased. */
    method Next(ghost all: seq<Pipe>, ghost k: nat, it: nat, exclude: int, answers: Pipe -> Answer, release: bool)
      returns (next: nat)
      requires k < |all| && it < |pipes| && ListAt(all, k, it, exclude, answers)
      requires release <==> !Stays(pipes[it], exclude, answers)
      modifies `count, `pipes
      ensures ListAt(all, k + 1, next, exclude, answers) && next <= |pipes|
    {
      Further(all, k, exclude, answers);
      assert pipes[it] == all[k];
      if release {
        count := count - 1;
        pipes := pipes[..it] + pipes[it + 1..];
        return it;
      }
      return it + 1;
    }
  }
}
