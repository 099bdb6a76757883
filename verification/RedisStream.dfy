/** The job queue over one Redis stream (`operator/runer/src/queue/msg_queue.rs`).

    Message ids are `<milliseconds>-0`, so the milliseconds stand for the id.  Redis itself appears
    as an ordered stream: XADD wants an id above every earlier one, XREAD from 0 with count 1 yields
    the smallest entry, XDEL removes by id. */
module RedisStream {
  datatype Entry = Entry(id: nat, data: string)

  datatype Stream = Stream(entries: seq<Entry>, lastId: nat)

  const EMPTY := Stream([], 0)

  predicate Accepts(st: Stream, id: nat) {
    id > st.lastId
  }

  function XAdd(st: Stream, entry: Entry): Stream
    requires Accepts(st, entry.id)
  {
    Stream(st.entries + [entry], entry.id)
  }

  function XRead(st: Stream): seq<Entry> {
    if st.entries == [] then [] else [st.entries[0]]
  }

  function Without(entries: seq<Entry>, id: nat): seq<Entry> {
    if entries == [] then []
    else if entries[0].id == id then Without(entries[1..], id)
    else [entries[0]] + Without(entries[1..], id)
  }

  function XDel(st: Stream, id: nat): Stream {
    st.(entries := Without(st.entries, id))
  }

  ghost predicate Increasing(entries: seq<Entry>) {
    forall i, j :: 0 <= i < j < |entries| ==> entries[i].id < entries[j].id
  }

  ghost predicate WellOrdered(st: Stream) {
    Increasing(st.entries) && forall i :: 0 <= i < |st.entries| ==> 0 < st.entries[i].id <= st.lastId
  }

  lemma {:induction false} WithoutAbsent(entries: seq<Entry>, id: nat)
    requires forall e :: e in entries ==> e.id != id
    ensures Without(entries, id) == entries
  {
    if entries == [] {
    } else {
      assert entries[0] in entries;
      WithoutAbsent(entries[1..], id);
    }
  }

  lemma {:induction false} WithoutAppend(a: seq<Entry>, b: seq<Entry>, id: nat)
    ensures Without(a + b, id) == Without(a, id) + Without(b, id)
  {
    if a == [] {
      assert a + b == b;
    } else {
      assert (a + b)[1..] == a[1..] + b;
      WithoutAppend(a[1..], b, id);
    }
  }

  lemma WithoutFirst(entries: seq<Entry>)
    requires entries != [] && forall e :: e in entries[1..] ==> e.id != entries[0].id
    ensures Without(entries, entries[0].id) == entries[1..]
  {
    WithoutAbsent(entries[1..], entries[0].id);
  }

  /** Deleting by id takes out exactly the entry at its position. */
  lemma {:induction false} WithoutAt(entries: seq<Entry>, k: nat)
    requires Increasing(entries) && k < |entries|
    ensures Without(entries, entries[k].id) == entries[..k] + entries[k + 1..]
    decreases k
  {
    var tail := entries[1..];
    if k == 0 {
      forall e | e in tail ensures e.id != entries[0].id {
        var i :| 0 < i < |entries| && entries[i] == e;
      }
      WithoutFirst(entries);
    } else {
      WithoutAt(tail, k - 1);
      assert entries[0].id < entries[k].id && tail[k - 1] == entries[k];
      assert entries[..k] + entries[k + 1..] == [entries[0]] + (tail[..k - 1] + tail[k..]);
    }
  }

  class RedisQueue {
    var entries: seq<Entry>
    var lastId: nat

    ghost predicate Valid()
      reads this
    {
      WellOrdered(Contents())
    }

    function Contents(): Stream
      reads this
    {
      Stream(entries, lastId)
    }

    constructor ()
      ensures Valid() && Contents() == EMPTY
    {
      entries, lastId := [], 0;
    }

    /** An id that is not above every id ever accepted, deleted ones included, is refused. */
    method Produce(message: Entry) returns (ok: bool)
      requires Valid()
      modifies this
      ensures Valid()
      ensures ok <==> Accepts(old(Contents()), message.id)
      ensures Contents() == if ok then XAdd(old(Contents()), message) else old(Contents())
    {
      ok := message.id > lastId;
      if ok {
        entries := entries + [message];
        lastId := message.id;
      }
    }

    /** The oldest entry, which stays in the stream. */
    method Consume() returns (messages: seq<Entry>)
      requires Valid()
      ensures messages == XRead(Contents())
      ensures |messages| <= 1 && (messages == [] <==> entries == [])
      ensures forall m, e :: m in messages && e in entries ==> m in entries && m.id <= e.id
    {
      messages := if entries == [] then [] else [entries[0]];
    }

    method Acknowledge(id: nat)
      requires Valid()
      modifies this
      ensures Valid()
      ensures Contents() == XDel(old(Contents()), id)
      ensures forall e :: e in entries <==> e in old(entries) && e.id != id
    {
      var i := 0;
      while i < |entries| && entries[i].id != id
        invariant 0 <= i <= |entries|
        invariant forall j :: 0 <= j < i ==> entries[j].id != id
      {
        i := i + 1;
      }
      if i < |entries| {
        WithoutAt(entries, i);
        entries := entries[..i] + entries[i + 1..];
      } else {
        WithoutAbsent(entries, id);
      }
    }
  }
}
