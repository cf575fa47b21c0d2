/** The decrypted TLS records that travel from the kernel ring to the stream
    table, and the per-connection views the proofs are stated over. */
module TlsRecords {
  import opened Basics

  /** An SSL pointer is only unique inside its process. */
  datatype ConnKey = ConnKey(pid: nat, connId: nat)

  datatype Direction = Write | Read

  /** lagged marks a tombstone: bytes of this connection were lost here. */
  datatype Record = Record(key: ConnKey, dir: Direction, data: seq<Byte>, lagged: bool)

  /** The records of one connection, in order. */
  function Of(key: ConnKey, recs: seq<Record>): seq<Record> {
    if recs == [] then []
    else
      var last := recs[|recs| - 1];
      var before := Of(key, recs[..|recs| - 1]);
      if last.key == key then before + [last] else before
  }

  /** The plaintext one direction of a connection carried, as far as recs tell. */
  function Stream(recs: seq<Record>, key: ConnKey, dir: Direction): seq<Byte> {
    if recs == [] then []
    else
      var last := recs[|recs| - 1];
      var before := Stream(recs[..|recs| - 1], key, dir);
      if last.key == key && last.dir == dir && !last.lagged then before + last.data else before
  }

  /** A tombstone of the connection is among recs. */
  predicate Tombstoned(recs: seq<Record>, key: ConnKey) {
    exists r :: r in recs && r.key == key && r.lagged
  }

  lemma OfSnoc(key: ConnKey, recs: seq<Record>, r: Record)
    ensures Of(key, recs + [r]) == if r.key == key then Of(key, recs) + [r] else Of(key, recs)
  {
    assert (recs + [r])[..|recs|] == recs;
  }

  lemma StreamSnoc(recs: seq<Record>, r: Record, key: ConnKey, dir: Direction)
    ensures Stream(recs + [r], key, dir) ==
            if r.key == key && r.dir == dir && !r.lagged then Stream(recs, key, dir) + r.data else Stream(recs, key, dir)
  {
    assert (recs + [r])[..|recs|] == recs;
  }

  lemma {:induction false} OfConcat(key: ConnKey, s: seq<Record>, t: seq<Record>)
    ensures Of(key, s + t) == Of(key, s) + Of(key, t)
  {
    if t == [] {
      assert s + t == s;
    } else {
      var t', r := t[..|t| - 1], t[|t| - 1];
      assert s + t == (s + t') + [r];
      assert t == t' + [r];
      OfConcat(key, s, t');
      OfSnoc(key, s + t', r);
      OfSnoc(key, t', r);
    }
  }

  lemma Assoc(a: seq<Byte>, b: seq<Byte>, c: seq<Byte>)
    ensures a + (b + c) == a + b + c
  {
  }

  lemma StreamConcatSnoc(s: seq<Record>, t: seq<Record>, r: Record, key: ConnKey, dir: Direction)
    requires Stream(s + t, key, dir) == Stream(s, key, dir) + Stream(t, key, dir)
    ensures Stream(s + (t + [r]), key, dir) == Stream(s, key, dir) + Stream(t + [r], key, dir)
  {
    assert s + (t + [r]) == s + t + [r];
    StreamSnoc(s + t, r, key, dir);
    StreamSnoc(t, r, key, dir);
    Assoc(Stream(s, key, dir), Stream(t, key, dir), r.data);
  }

  lemma {:induction false} StreamConcat(s: seq<Record>, t: seq<Record>, key: ConnKey, dir: Direction)
    ensures Stream(s + t, key, dir) == Stream(s, key, dir) + Stream(t, key, dir)
  {
    if t == [] {
      assert s + t == s;
    } else {
      var t', r := t[..|t| - 1], t[|t| - 1];
      StreamConcat(s, t', key, dir);
      StreamConcatSnoc(s, t', r, key, dir);
      assert t == t' + [r];
    }
  }

  /** A stream only depends on the records of its own connection. */
  lemma {:induction false} StreamOf(recs: seq<Record>, key: ConnKey, dir: Direction)
    ensures Stream(recs, key, dir) == Stream(Of(key, recs), key, dir)
  {
    if recs != [] {
      var init, r := recs[..|recs| - 1], recs[|recs| - 1];
      StreamOf(init, key, dir);
      StreamOfSnoc(init, r, key, dir);
      assert recs == init + [r];
    }
  }

  lemma StreamOfSnoc(recs: seq<Record>, r: Record, key: ConnKey, dir: Direction)
    requires Stream(recs, key, dir) == Stream(Of(key, recs), key, dir)
    ensures Stream(recs + [r], key, dir) == Stream(Of(key, recs + [r]), key, dir)
  {
    StreamSnoc(recs, r, key, dir);
    OfSnoc(key, recs, r);
    StreamSnoc(Of(key, recs), r, key, dir);
  }

  /** Two records of one connection keep their order in its view. */
  lemma OfOrder(key: ConnKey, recs: seq<Record>, i: nat, j: nat) returns (p: nat, q: nat)
    requires i < j < |recs| && recs[i].key == recs[j].key == key
    ensures p < q < |Of(key, recs)| && Of(key, recs)[p] == recs[i] && Of(key, recs)[q] == recs[j]
  {
    var a, b := recs[..j], recs[j..];
    assert recs == a + b;
    OfConcat(key, a, b);
    assert a[i] == recs[i] && b[0] == recs[j];
    p := OfIndex(key, a, i);
    q := OfIndex(key, b, 0);
    q := q + |Of(key, a)|;
  }

  lemma {:induction false} OfIndex(key: ConnKey, recs: seq<Record>, i: nat) returns (p: nat)
    requires i < |recs| && recs[i].key == key
    ensures p < |Of(key, recs)| && Of(key, recs)[p] == recs[i]
  {
    var a, b := recs[..i + 1], recs[i + 1..];
    assert recs == a + b;
    OfConcat(key, a, b);
    assert a == recs[..i] + [recs[i]];
    OfSnoc(key, recs[..i], recs[i]);
    p := |Of(key, recs[..i])|;
  }
}
