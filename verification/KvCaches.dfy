/** The K/V cache of a full-attention block: a rewind is a slice, and nothing is replayed. */
module KvCaches {
  import opened Common

  type Entry = (Row, Row)

  /**
   A full-attention block. entry: the rotated key and the value of a row at a position. attend: the
   causal readout of a row over the entries up to its own. combine: residual and row-wise MLP.
   */
  datatype Attention = Attention(
    norm: Row -> Row, entry: (nat, Row) -> Entry, attend: (nat, Row, seq<Entry>) -> Row, combine: (Row, Row) -> Row)

  /** Keys and values of rows placed at positions first, first + 1, ... */
  function Entries(a: Attention, first: nat, xs: seq<Row>): (r: seq<Entry>)
    ensures |r| == |xs|
  {
    seq(|xs|, t requires 0 <= t < |xs| => a.entry(first + t, a.norm(xs[t])))
  }

  function AttendedRow(a: Attention, entries: seq<Entry>, position: nat, x: Row): Row
    requires position < |entries|
  {
    a.combine(a.attend(position, a.norm(x), entries[..position + 1]), x)
  }

  /** One forward pass after the given past entries. */
  function AttentionRows(a: Attention, past: seq<Entry>, xs: seq<Row>): (r: seq<Row>)
    ensures |r| == |xs|
  {
    var all := past + Entries(a, |past|, xs);
    seq(|xs|, t requires 0 <= t < |xs| => AttendedRow(a, all, |past| + t, xs[t]))
  }

  lemma AttentionSplits(a: Attention, past: seq<Entry>, xs: seq<Row>, ys: seq<Row>)
    ensures past + Entries(a, |past|, xs + ys)
         == past + Entries(a, |past|, xs) + Entries(a, |past| + |xs|, ys)
    ensures AttentionRows(a, past, xs + ys)
         == AttentionRows(a, past, xs) + AttentionRows(a, past + Entries(a, |past|, xs), ys)
  {
    var all := past + Entries(a, |past|, xs + ys);
    var first := past + Entries(a, |past|, xs);
    assert all == first + Entries(a, |past| + |xs|, ys);
    forall t | 0 <= t < |xs|
      ensures AttendedRow(a, all, |past| + t, xs[t]) == AttendedRow(a, first, |past| + t, xs[t])
    {
      assert all[..|past| + t + 1] == first[..|past| + t + 1];
    }
  }

  /**
   The row at position p, spelled out: its normed row attends, from position p, to one entry per row up to its own,
   each made at its own position from its normed row.
   */
  lemma RowAttendsToPrefix(a: Attention, xs: seq<Row>, p: nat)
    requires p < |xs|
    ensures AttentionRows(a, [], xs)[p]
         == a.combine(
              a.attend(p, a.norm(xs[p]), seq(p + 1, i requires 0 <= i <= p => a.entry(i, a.norm(xs[i])))),
              xs[p])
  {
    assert ([] + Entries(a, 0, xs))[..p + 1] == seq(p + 1, i requires 0 <= i <= p => a.entry(i, a.norm(xs[i])));
  }

  class KvCache {
    const block: Attention
    const keys: array<Row>
    const values: array<Row>
    ghost var log: seq<Row>

    function Stored(i: nat): Entry
      requires i < keys.Length == values.Length
      reads keys, values
    {
      (keys[i], values[i])
    }

    function Prefix(n: nat): (r: seq<Entry>)
      requires n <= keys.Length == values.Length
      reads keys, values
      ensures |r| == n
    {
      seq(n, i requires 0 <= i < n <= keys.Length == values.Length reads keys, values => Stored(i))
    }

    ghost predicate Valid()
      reads this, keys, values
    {
      && keys != values
      && |log| <= keys.Length == values.Length
      && Prefix(|log|) == Entries(block, 0, log)
    }

    constructor (block: Attention, maxLength: nat)
      ensures Valid() && log == [] && keys.Length == maxLength && this.block == block
      ensures fresh(keys) && fresh(values)
    {
      this.block, log := block, [];
      keys := new Row[maxLength](_ => []);
      values := new Row[maxLength](_ => []);
    }

    /**
     One inference step. The K/V tensors are sliced to the prefix whatever was cached before; the rows
     are those of a stateless pass when the prefix was cached. raises(k) tells whether the forward pass
     for offset k raises; the cache is committed only after all of them succeeded.
     */
    method InferenceWithCache(hidden: seq<Row>, prefixLength: nat, chunkLength: nat, raises: nat -> bool)
      returns (r: Result<seq<Row>>)
      requires Valid() && |hidden| >= 1 && chunkLength >= 1 && prefixLength + |hidden| <= keys.Length
      modifies this, keys, values
      ensures Valid()
      ensures r.Ok? ==> r.value == AttentionRows(block, old(Prefix(prefixLength)), hidden)
      ensures r.Ok? && prefixLength <= |old(log)| ==>
                && log == old(log)[..prefixLength] + hidden
                && r.value == AttentionRows(block, [], log)[prefixLength..]
      ensures r.Ok? && prefixLength > |old(log)| ==> log == old(log)
      ensures r.Raised? ==> log == old(log) && keys[..] == old(keys[..]) && values[..] == old(values[..])
      ensures (forall k :: !raises(k)) ==> r.Ok?
    {
      ghost var past := Prefix(prefixLength);
      var state := Prefix(prefixLength);
      var out: seq<Row>, offset := [], 0;
      assert hidden[..0] == [];
      while offset < |hidden|
        modifies {}
        invariant 0 <= offset <= |hidden|
        invariant state == past + Entries(block, prefixLength, hidden[..offset])
        invariant out == AttentionRows(block, past, hidden[..offset])
      {
        var end := if offset + chunkLength < |hidden| then offset + chunkLength else |hidden|;
        var inputs := hidden[offset..end];
        if raises(offset) {
          return Raised;
        }
        assert hidden[..end] == hidden[..offset] + inputs;
        AttentionSplits(block, past, hidden[..offset], inputs);
        out := out + AttentionRows(block, state, inputs);
        state, offset := state + Entries(block, |state|, inputs), end;
      }
      assert hidden[..|hidden|] == hidden;
      CommitRows(state, prefixLength, |hidden|);
      if prefixLength <= |log| {
        CachedPrefix(block, log, hidden, prefixLength, past);
        log := log[..prefixLength] + hidden;
      }
      r := Ok(out);
    }

    /** target[prefix:end].copy_(source[prefix:end]) for both tensors. */
    method CommitRows(state: seq<Entry>, prefixLength: nat, n: nat)
      requires keys != values && |state| == prefixLength + n <= keys.Length == values.Length
      modifies keys, values
      ensures forall i | 0 <= i < keys.Length ::
                Stored(i) == if prefixLength <= i < prefixLength + n then state[i] else old(Stored(i))
    {
      forall i | prefixLength <= i < prefixLength + n {
        keys[i] := state[i].0;
      }
      forall i | prefixLength <= i < prefixLength + n {
        values[i] := state[i].1;
      }
    }
  }

  lemma CachedPrefix(a: Attention, log: seq<Row>, hidden: seq<Row>, n: nat, past: seq<Entry>)
    requires n <= |log| && past == Entries(a, 0, log)[..n]
    ensures Entries(a, 0, log[..n] + hidden) == past + Entries(a, n, hidden)
    ensures AttentionRows(a, [], log[..n] + hidden)[n..] == AttentionRows(a, past, hidden)
  {
    AttentionSplits(a, [], log[..n], hidden);
    assert past == Entries(a, 0, log[..n]);
    assert [] + past == past;
  }

  // ----- prefixes beyond the cached rows -----

  /** The step's rows continue some sequence of the prefix's length that extends what was cached. */
  ghost predicate StepContinues(a: Attention, log: seq<Row>, rest: seq<Entry>, n: nat, hidden: seq<Row>)
    requires n <= |log| + |rest|
  {
    exists s: seq<Row> :: |s| == n && Continues(a, log, rest, n, hidden, s)
  }

  ghost predicate Continues(a: Attention, log: seq<Row>, rest: seq<Entry>, n: nat, hidden: seq<Row>, s: seq<Row>)
    requires n <= |log| + |rest| && |s| == n
  {
    && (if n <= |log| then s == log[..n] else log <= s)
    && AttentionRows(a, (Entries(a, 0, log) + rest)[..n], hidden) == AttentionRows(a, [], s + hidden)[n..]
  }

  /** An attention block whose rows show the last key it may look at before its own. */
  function Telltale(): Attention {
    Attention(x => [], (i, x) => ([1.0], [1.0]),
              (i: nat, x: Row, es: seq<Entry>) => if |es| >= 2 then es[|es| - 2].0 else [],
              (y, x) => y)
  }

  /**
   The step is right for every block, every leftover content of the cache and every input exactly when
   the prefix was cached. Nothing refuses a larger prefix: the comparison on the server's side is
   written as a nonempty tuple and always passes.
   */
  lemma StepIsRightExactlyWhenCached(log: seq<Row>, n: nat)
    ensures n <= |log| <==>
            forall a: Attention, rest: seq<Entry>, hidden: seq<Row> | n <= |log| + |rest| ::
              StepContinues(a, log, rest, n, hidden)
  {
    if n <= |log| {
      forall a: Attention, rest: seq<Entry>, hidden: seq<Row> | n <= |log| + |rest|
        ensures StepContinues(a, log, rest, n, hidden)
      {
        var past := (Entries(a, 0, log) + rest)[..n];
        assert past == Entries(a, 0, log)[..n];
        CachedPrefix(a, log, hidden, n, past);
        assert Continues(a, log, rest, n, hidden, log[..n]);
      }
    } else {
      var a, rest, hidden := Telltale(), seq(n, i => ([0.0], [0.0])), [[]];
      forall s: seq<Row> | |s| == n ensures !Continues(a, log, rest, n, hidden, s) {
        TelltaleShows(a, (Entries(a, 0, log) + rest)[..n], s, hidden, n);
      }
      assert !StepContinues(a, log, rest, n, hidden);
    }
  }

  lemma TelltaleShows(a: Attention, past: seq<Entry>, s: seq<Row>, hidden: seq<Row>, n: nat)
    requires a == Telltale() && |past| == |s| == n >= 1 && |hidden| == 1 && past[n - 1] == ([0.0], [0.0])
    ensures AttentionRows(a, past, hidden)[0] == [0.0]
    ensures AttentionRows(a, [], s + hidden)[n..][0] == [1.0]
  {
    var all := [] + Entries(a, 0, s + hidden);
    assert all[..n + 1][n - 1] == ([1.0], [1.0]);
  }
}
