/** A key-value disk and its write batches (ethdb/memory_database.go). */
module Batches {
  import opened Common

  datatype Write = Write(key: Bytes, value: Bytes)

  type Data = map<Bytes, Bytes>

  /** The data after a sequence of writes. */
  ghost function Apply(d: Data, ws: seq<Write>): Data {
    if ws == [] then d else Apply(d, ws[..|ws| - 1])[ws[|ws| - 1].key := ws[|ws| - 1].value]
  }

  ghost predicate Written(ws: seq<Write>, key: Bytes) {
    exists i :: 0 <= i < |ws| && ws[i].key == key
  }

  lemma {:induction false} ApplyConcat(d: Data, a: seq<Write>, b: seq<Write>)
    ensures Apply(d, a + b) == Apply(Apply(d, a), b)
    decreases |b|
  {
    if b == [] {
      assert a + b == a;
    } else {
      ApplyConcat(d, a, b[..|b| - 1]);
      assert (a + b)[..|a + b| - 1] == a + b[..|b| - 1];
    }
  }

  /** A key that is not written keeps its value. */
  lemma {:induction false} ApplyOther(d: Data, ws: seq<Write>, key: Bytes)
    requires !Written(ws, key)
    ensures (key in Apply(d, ws) <==> key in d) && (key in d ==> Apply(d, ws)[key] == d[key])
    decreases |ws|
  {
    if ws != [] {
      var front := ws[..|ws| - 1];
      assert ws[|ws| - 1].key != key && forall i | 0 <= i < |front| :: front[i] == ws[i];
      ApplyOther(d, front, key);
    }
  }

  /** A key that is only written with one value has it. */
  lemma {:induction false} ApplySame(d: Data, ws: seq<Write>, key: Bytes, value: Bytes)
    requires Written(ws, key) && forall i | 0 <= i < |ws| && ws[i].key == key :: ws[i].value == value
    ensures key in Apply(d, ws) && Apply(d, ws)[key] == value
    decreases |ws|
  {
    var front := ws[..|ws| - 1];
    if ws[|ws| - 1].key != key {
      var i :| 0 <= i < |ws| && ws[i].key == key;
      assert front[i].key == key;
      ApplySame(d, front, key, value);
    }
  }

  lemma WrittenConcat(a: seq<Write>, b: seq<Write>, key: Bytes)
    ensures Written(a + b, key) <==> Written(a, key) || Written(b, key)
  {
    assert forall i | 0 <= i < |a| :: (a + b)[i] == a[i];
    assert forall i | 0 <= i < |b| :: (a + b)[|a| + i] == b[i];
    if Written(a + b, key) {
      var i :| 0 <= i < |a + b| && (a + b)[i].key == key;
      assert if i < |a| then a[i].key == key else b[i - |a|].key == key;
    }
  }

  ghost function ValueSum(ws: seq<Write>): nat {
    if ws == [] then 0 else ValueSum(ws[..|ws| - 1]) + |ws[|ws| - 1].value|
  }

  lemma ValueSumSnoc(ws: seq<Write>, w: Write)
    ensures ValueSum(ws + [w]) == ValueSum(ws) + |w.value|
  {
    assert (ws + [w])[..|ws|] == ws;
  }

  /** The disk. Any operation of a batch on it may fail. */
  class Disk {
    var data: Data
    ghost var failures: nat

    constructor (data: Data)
      ensures this.data == data
    {
      this.data, failures := data, 0;
    }
  }

  /** A batch collects writes and applies them at once. The ghost fields follow all
      writes put into it: those before mark are reset, those before done are on disk. */
  class Batch {
    const disk: Disk
    var writes: seq<Write>
    var size: nat
    ghost const base: Data
    ghost var all: seq<Write>
    ghost var mark: nat
    ghost var done: nat

    ghost predicate Valid()
      reads this, disk
    {
      && mark <= done <= |all| && writes == all[mark..] && size == ValueSum(writes)
      && disk.data == Apply(base, all[..done])
    }

    /** Nothing collected has been written yet. */
    ghost predicate Ready()
      reads this, disk
    {
      Valid() && mark == done
    }

    constructor (disk: Disk)
      ensures Ready() && this.disk == disk && base == disk.data && all == [] && done == 0
    {
      this.disk, writes, size := disk, [], 0;
      base, all, mark, done := disk.data, [], 0, 0;
    }

    method Put(key: Bytes, value: Bytes) returns (ok: bool)
      requires Ready()
      modifies this`writes, this`size, this`all, disk`failures
      ensures Ready() && all == (if ok then old(all) + [Write(key, value)] else old(all))
      ensures disk.failures == old(disk.failures) + if ok then 0 else 1
    {
      hide Apply, ValueSum;
      ok := *;
      if !ok {
        disk.failures := disk.failures + 1;
      } else {
        ValueSumSnoc(writes, Write(key, value));
        assert (all + [Write(key, value)])[mark..] == all[mark..] + [Write(key, value)];
        assert (all + [Write(key, value)])[..done] == all[..done];
        writes, size := writes + [Write(key, value)], size + |value|;
        all := all + [Write(key, value)];
      }
    }

    /** Applies the collected writes in order, or fails and leaves the disk alone. */
    method Flush() returns (ok: bool)
      requires Ready()
      modifies this`done, disk
      ensures Valid() && done == (if ok then |all| else old(done))
      ensures disk.failures == old(disk.failures) + if ok then 0 else 1
    {
      hide Apply, ValueSum;
      ok := *;
      if !ok {
        disk.failures := disk.failures + 1;
        return;
      }
      var i := 0;
      ghost var data0 := disk.data;
      assert writes[..0] == [] && Apply(data0, []) == data0 by { ApplyNone(data0); }
      while i < |writes|
        invariant 0 <= i <= |writes| && disk.data == Apply(data0, writes[..i]) && done == old(done)
        invariant disk.failures == old(disk.failures)
      {
        ApplySnoc(data0, writes[..i], writes[i]);
        assert writes[..i + 1] == writes[..i] + [writes[i]];
        disk.data := disk.data[writes[i].key := writes[i].value];
        i := i + 1;
      }
      assert writes[..i] == writes;
      ApplyConcat(base, all[..done], writes);
      assert all[..done] + writes == all && all[..|all|] == all;
      done := |all|;
    }

    method Reset()
      requires Valid() && done == |all|
      modifies this`writes, this`size, this`mark
      ensures Ready() && size == 0
    {
      writes, size := [], 0;
      mark := done;
    }

    /** Writes out a batch that has grown to the limit, and starts over. */
    method FlushFull(limit: nat) returns (ok: bool)
      requires Ready() && size >= limit
      modifies this`done, this`writes, this`size, this`mark, disk
      ensures Valid() && (ok ==> Ready() && size == 0)
      ensures disk.failures == old(disk.failures) + if ok then 0 else 1
    {
      hide Apply, ValueSum;
      ok := Flush();
      if ok {
        Reset();
      }
    }
  }

  lemma ApplyNone(d: Data)
    ensures Apply(d, []) == d
  {
  }

  lemma ApplySnoc(d: Data, ws: seq<Write>, w: Write)
    ensures Apply(d, ws + [w]) == Apply(d, ws)[w.key := w.value]
  {
    assert (ws + [w])[..|ws|] == ws;
  }
}
