/** What a handler writes, and how the writes it makes are checked against it.

    A handler's output is a list of sends: a single write to one connection, or
    the same message written once to every connection of a set. The server fans
    out by iterating a hash set, so the order of the writes inside one fan-out is
    not specified; the order of the sends themselves is. */
module Outbox {
  import opened Protocol

  /** One `writeMsg` call: the connection written to and the message. */
  type Write = (Conn, Msg)

  datatype Send =
    | To(target: Conn, msg: Msg)
    | ToAll(targets: set<Conn>, msg: Msg)

  /** How many writes a send takes. */
  function Width(s: Send): nat {
    match s
    case To(_, _) => 1
    case ToAll(targets, _) => |targets|
  }

  /** The connections written to, with multiplicity. */
  function Recipients(batch: seq<Write>): multiset<Conn> {
    if batch == [] then multiset{} else multiset{batch[0].0} + Recipients(batch[1..])
  }

  /** `batch` writes `m` exactly once to every member of `targets` and to nothing else. */
  ghost predicate Fanout(batch: seq<Write>, targets: set<Conn>, m: Msg) {
    && (forall i | 0 <= i < |batch| :: batch[i].1 == m)
    && Recipients(batch) == multiset(targets)
  }

  ghost predicate Covers(batch: seq<Write>, s: Send) {
    match s
    case To(c, m) => batch == [(c, m)]
    case ToAll(targets, m) => Fanout(batch, targets, m)
  }

  /** The writes `delta`, in order, carry out `sends`, in order. */
  ghost predicate Realizes(delta: seq<Write>, sends: seq<Send>)
    decreases |sends|
  {
    if sends == [] then delta == []
    else
      var k := Width(sends[0]);
      && k <= |delta|
      && Covers(delta[..k], sends[0])
      && Realizes(delta[k..], sends[1..])
  }

  /** The outbox went from `before` to `after` by carrying out `sends`. */
  ghost predicate Extends(before: seq<Write>, after: seq<Write>, sends: seq<Send>) {
    && |before| <= |after|
    && after[..|before|] == before
    && Realizes(after[|before|..], sends)
  }

  /** A finished fan-out loop: its writes, appended to the outbox, carry out one `ToAll`. */
  lemma FanoutExtends(before: seq<Write>, batch: seq<Write>, targets: set<Conn>, m: Msg)
    requires |batch| == |targets| && Fanout(batch, targets, m)
    ensures Extends(before, before + batch, [ToAll(targets, m)])
  {
    assert (before + batch)[..|before|] == before;
    assert (before + batch)[|before|..] == batch;
    assert batch[..|targets|] == batch;
    assert batch[|targets|..] == [];
  }

  /** How many copies of `m` the sends deliver to `c`: the reference count
      against which the real outbox is measured. */
  function CopiesIn(s: Send, c: Conn, m: Msg): nat {
    match s
    case To(d, n) => if d == c && n == m then 1 else 0
    case ToAll(targets, n) => if c in targets && n == m then 1 else 0
  }

  function Copies(sends: seq<Send>, c: Conn, m: Msg): nat {
    if sends == [] then 0 else CopiesIn(sends[0], c, m) + Copies(sends[1..], c, m)
  }

  lemma {:induction false} RealizesAppend(d1: seq<Write>, s1: seq<Send>, d2: seq<Write>, s2: seq<Send>)
    requires Realizes(d1, s1) && Realizes(d2, s2)
    ensures Realizes(d1 + d2, s1 + s2)
    decreases |s1|
  {
    if s1 == [] {
      assert d1 + d2 == d2;
      assert s1 + s2 == s2;
    } else {
      var k := Width(s1[0]);
      RealizesAppend(d1[k..], s1[1..], d2, s2);
      assert (d1 + d2)[..k] == d1[..k];
      assert (d1 + d2)[k..] == d1[k..] + d2;
      assert (s1 + s2)[0] == s1[0];
      assert (s1 + s2)[1..] == s1[1..] + s2;
    }
  }

  /** Two successive stretches of writes carry out the two lists of sends in turn. */
  lemma Chain(before: seq<Write>, mid: seq<Write>, after: seq<Write>, s1: seq<Send>, s2: seq<Send>)
    requires Extends(before, mid, s1) && Extends(mid, after, s2)
    ensures Extends(before, after, s1 + s2)
  {
    assert after[|before|..] == mid[|before|..] + after[|mid|..] by {
      assert after == mid + after[|mid|..];
    }
    RealizesAppend(mid[|before|..], s1, after[|mid|..], s2);
  }

  lemma {:induction false} RecipientsAppend(batch: seq<Write>, w: Write)
    ensures Recipients(batch + [w]) == Recipients(batch) + multiset{w.0}
  {
    if batch != [] {
      RecipientsAppend(batch[1..], w);
      assert (batch + [w])[1..] == batch[1..] + [w];
    } else {
      assert [w][1..] == [];
    }
  }

  lemma {:induction false} UniformCount(batch: seq<Write>, n: Msg, c: Conn)
    requires forall i | 0 <= i < |batch| :: batch[i].1 == n
    ensures multiset(batch)[(c, n)] == Recipients(batch)[c]
  {
    if batch != [] {
      UniformCount(batch[1..], n, c);
      assert batch == [batch[0]] + batch[1..];
    }
  }

  /** A fan-out delivers one copy to each target and none to anyone else. */
  lemma FanoutCopies(batch: seq<Write>, targets: set<Conn>, n: Msg, c: Conn, m: Msg)
    requires Fanout(batch, targets, n)
    ensures multiset(batch)[(c, m)] == if c in targets && n == m then 1 else 0
  {
    if n == m {
      UniformCount(batch, n, c);
    } else {
      assert forall i | 0 <= i < |batch| :: batch[i] != (c, m);
    }
  }

  /** The writes carrying out `sends` deliver exactly `Copies` copies of every message. */
  lemma {:induction false} DeliveredCopies(delta: seq<Write>, sends: seq<Send>, c: Conn, m: Msg)
    requires Realizes(delta, sends)
    ensures multiset(delta)[(c, m)] == Copies(sends, c, m)
    decreases |sends|
  {
    if sends != [] {
      var k := Width(sends[0]);
      DeliveredCopies(delta[k..], sends[1..], c, m);
      assert delta == delta[..k] + delta[k..];
      match sends[0]
      case To(d, n) =>
      case ToAll(targets, n) =>
        FanoutCopies(delta[..k], targets, n, c, m);
    }
  }

  /** The copies delivered by a single send, for every recipient and message. */
  lemma CopiesOfOne(x: Send)
    ensures forall c, m :: Copies([x], c, m) == CopiesIn(x, c, m)
  {
    forall c, m ensures Copies([x], c, m) == CopiesIn(x, c, m) {
      assert [x][1..] == [];
    }
  }

  /** The copies delivered by two sends, for every recipient and message. */
  lemma CopiesOfPair(x: Send, y: Send)
    ensures forall c, m :: Copies([x, y], c, m) == CopiesIn(x, c, m) + CopiesIn(y, c, m)
  {
    forall c, m ensures Copies([x, y], c, m) == CopiesIn(x, c, m) + CopiesIn(y, c, m) {
      assert [x, y][1..] == [y];
      CopiesOfOne(y);
    }
  }
}
