/** The audit log: one hash chain per partition, advanced under a lock on its head. */
module AuditChain {

  /** Everything of an event that is hashed, apart from the previous hash. */
  datatype Body = Body(product: string, content: string)
  datatype Entry = Entry(body: Body, previous: string, hash: string)

  type Hash = (Body, string) -> string

  const ZERO := "0000000000000000000000000000000000000000000000000000000000000000"

  function Partition(b: Body): string {
    if b.product == "" then "global" else "product:" + b.product
  }

  lemma ProductPartition(product: string)
    ensures "product:" + product != "global"
    ensures ("product:" + product)[8..] == product
  {
    assert ("product:" + product)[0] == 'p';
  }

  /** Products have a partition each, and events without one share another. */
  lemma PartitionsSeparateProducts(a: Body, b: Body)
    ensures Partition(a) == Partition(b) <==> a.product == b.product
    ensures Partition(a) == "global" <==> a.product == ""
  {
    ProductPartition(a.product);
    ProductPartition(b.product);
  }

  function HeadOf(log: seq<Entry>): string {
    if log == [] then ZERO else log[|log| - 1].hash
  }

  /** Each entry carries the hash of the one before it and its own hash over both. */
  ghost predicate Linked(h: Hash, log: seq<Entry>) {
    log != [] ==>
      var before, e := log[..|log| - 1], log[|log| - 1];
      Linked(h, before) && e.previous == HeadOf(before) && e.hash == h(e.body, e.previous)
  }

  lemma LinkedGrows(h: Hash, log: seq<Entry>, e: Entry)
    requires Linked(h, log) && e.previous == HeadOf(log) && e.hash == h(e.body, e.previous)
    ensures Linked(h, log + [e]) && HeadOf(log + [e]) == e.hash
  {
    assert (log + [e])[..|log|] == log;
  }

  ghost function BodiesOf(log: seq<Entry>): seq<Body> {
    seq(|log|, i requires 0 <= i < |log| => log[i].body)
  }

  /** The events of one product, in order. */
  ghost function OfProduct(history: seq<Body>, product: string): seq<Body> {
    if history == [] then []
    else
      var last := history[|history| - 1];
      OfProduct(history[..|history| - 1], product) + if last.product == product then [last] else []
  }

  lemma OfProductGrows(history: seq<Body>, b: Body, product: string)
    ensures OfProduct(history + [b], product)
         == OfProduct(history, product) + if b.product == product then [b] else []
  {
    assert (history + [b])[..|history|] == history;
  }

  ghost function LogAt(logs: map<string, seq<Entry>>, p: string): seq<Entry> {
    if p in logs then logs[p] else []
  }

  /** Each partition holds exactly the events of its product, in the order of their arrival. */
  ghost predicate Sorted(logs: map<string, seq<Entry>>, history: seq<Body>) {
    forall b: Body :: BodiesOf(LogAt(logs, Partition(b))) == OfProduct(history, b.product)
  }

  lemma SortedGrows(logs: map<string, seq<Entry>>, history: seq<Body>, e: Entry)
    requires Sorted(logs, history)
    ensures var p := Partition(e.body); Sorted(logs[p := LogAt(logs, p) + [e]], history + [e.body])
  {
    var p := Partition(e.body);
    var more := logs[p := LogAt(logs, p) + [e]];
    forall b: Body
      ensures BodiesOf(LogAt(more, Partition(b))) == OfProduct(history + [e.body], b.product)
    {
      PartitionsSeparateProducts(e.body, b);
      OfProductGrows(history, e.body, b.product);
      assert BodiesOf(LogAt(logs, Partition(b))) == OfProduct(history, b.product);
      if Partition(b) == p {
        assert BodiesOf(LogAt(logs, p) + [e]) == BodiesOf(LogAt(logs, p)) + [e.body];
      }
    }
  }

  class AuditLog {
    const h: Hash
    var heads: map<string, string>
    var logs: map<string, seq<Entry>>
    ghost var history: seq<Body>

    ghost predicate Valid()
      reads this
    {
      && heads.Keys == logs.Keys && Sorted(logs, history)
      && forall p :: p in logs ==> Linked(h, logs[p]) && heads[p] == HeadOf(logs[p])
    }

    constructor (h: Hash)
      ensures Valid() && this.h == h && logs == map[] && history == []
    {
      this.h, heads, logs, history := h, map[], map[], [];
    }

    /** `Append`: a missing head starts at the zero hash, and only the event's own partition moves. */
    method Append(b: Body) returns (e: Entry)
      requires Valid()
      modifies this
      ensures Valid() && history == old(history) + [b]
      ensures e.body == b && e.hash == h(b, e.previous)
      ensures e.previous == if Partition(b) in old(heads) then old(heads)[Partition(b)] else ZERO
      ensures logs == old(logs)[Partition(b) := LogAt(old(logs), Partition(b)) + [e]]
    {
      var p := Partition(b);
      var previous, log := ZERO, [];
      if p in heads {
        previous, log := heads[p], logs[p];
      }
      e := Entry(b, previous, h(b, previous));
      LinkedGrows(h, log, e);
      SortedGrows(logs, history, e);
      heads, logs, history := heads[p := e.hash], logs[p := log + [e]], history + [b];
    }
  }

  /** The hash does not take different parts of the two logs to one value. */
  ghost predicate NoCollision(h: Hash, a: seq<Entry>, b: seq<Entry>) {
    forall i, j :: 0 <= i < |a| && 0 <= j < |b| && h(a[i].body, a[i].previous) == h(b[j].body, b[j].previous) ==>
                     a[i].body == b[j].body && a[i].previous == b[j].previous
  }

  ghost predicate NoZero(log: seq<Entry>) {
    forall i :: 0 <= i < |log| ==> log[i].hash != ZERO
  }

  /**
   As long as the hash neither collides on the two logs nor yields the zero hash, the head
   determines the whole history.
   */
  lemma {:induction false} HeadDeterminesHistory(h: Hash, a: seq<Entry>, b: seq<Entry>)
    requires Linked(h, a) && Linked(h, b) && HeadOf(a) == HeadOf(b)
    requires NoCollision(h, a, b) && NoZero(a) && NoZero(b)
    ensures a == b
    decreases |a|
  {
    if a != [] && b != [] {
      var m, n := |a| - 1, |b| - 1;
      assert a[m].hash == h(a[m].body, a[m].previous) && b[n].hash == h(b[n].body, b[n].previous);
      assert a[m].body == b[n].body && a[m].previous == b[n].previous;
      HeadDeterminesHistory(h, a[..m], b[..n]);
      assert a == a[..m] + [a[m]] && b == b[..n] + [b[n]];
    }
  }

  /** A linked log is the one chain of its events: nothing else in it is free. */
  lemma {:induction false} EventsDetermineLog(h: Hash, a: seq<Entry>, b: seq<Entry>)
    requires Linked(h, a) && Linked(h, b) && BodiesOf(a) == BodiesOf(b)
    ensures a == b
    decreases |a|
  {
    assert |a| == |BodiesOf(a)| == |BodiesOf(b)| == |b|;
    if a != [] {
      var n := |a| - 1;
      assert BodiesOf(a)[n] == BodiesOf(b)[n];
      assert BodiesOf(a[..n]) == BodiesOf(a)[..n] && BodiesOf(b[..n]) == BodiesOf(b)[..n];
      EventsDetermineLog(h, a[..n], b[..n]);
      assert a == a[..n] + [a[n]] && b == b[..n] + [b[n]];
    }
  }

  /** Changing, dropping or reordering any part of a history changes its head. */
  lemma AlteredHistoryShows(h: Hash, a: seq<Entry>, b: seq<Entry>)
    requires Linked(h, a) && Linked(h, b) && a != b
    requires NoCollision(h, a, b) && NoZero(a) && NoZero(b)
    ensures HeadOf(a) != HeadOf(b)
  {
    if HeadOf(a) == HeadOf(b) {
      HeadDeterminesHistory(h, a, b);
    }
  }
}
