/** The one block of memory that holds every signal's ring: row after row, one cell per signal in each. */
module ResultsMatrix {
  import opened Signals

  function Slot(signals: nat, s: nat, b: nat): nat {
    s + signals * b
  }

  lemma SlotInRange(signals: nat, depth: nat, s: nat, b: nat)
    requires s < signals && b < depth
    ensures Slot(signals, s, b) < signals * depth
  {
    assert signals * b + signals == signals * (b + 1);
    MulMonotone(signals, b + 1, depth);
  }

  lemma MulMonotone(x: nat, a: nat, b: nat)
    requires a <= b
    ensures x * a <= x * b
  {
    assert x * b == x * a + x * (b - a);
  }

  lemma SlotInjective(signals: nat, s: nat, b: nat, s': nat, b': nat)
    requires s < signals && s' < signals && Slot(signals, s, b) == Slot(signals, s', b')
    ensures s == s' && b == b'
  {
    if b < b' {
      assert signals * (b + 1) == signals * b + signals;
      MulMonotone(signals, b + 1, b');
    } else if b' < b {
      assert signals * (b' + 1) == signals * b' + signals;
      MulMonotone(signals, b' + 1, b);
    }
  }

  class Matrix {
    const signals: nat
    const depth: nat
    const cells: array<Value>
    /** The same cells seen as one column per signal. */
    ghost var Cols: seq<seq<Value>>

    ghost predicate Valid()
      reads this, cells
    {
      && cells.Length == signals * depth
      && |Cols| == signals
      && (forall s :: 0 <= s < signals ==> |Cols[s]| == depth)
      && forall s: nat, b: nat {:trigger Slot(signals, s, b)} :: s < signals && b < depth ==>
           Slot(signals, s, b) < cells.Length && cells[Slot(signals, s, b)] == Cols[s][b]
    }

    /** Freshly allocated memory, with arbitrary contents. */
    constructor (signals: nat, depth: nat)
      ensures Valid() && fresh(cells)
      ensures this.signals == signals && this.depth == depth
    {
      this.signals := signals;
      this.depth := depth;
      cells := new Value[signals * depth];
      new;
      forall s: nat, b: nat | s < signals && b < depth ensures Slot(signals, s, b) < cells.Length {
        SlotInRange(signals, depth, s, b);
      }
      ghost var now := cells[..];
      Cols := seq(signals, s requires 0 <= s < signals =>
        seq(depth, b requires 0 <= b < depth => if Slot(signals, s, b) < |now| then now[Slot(signals, s, b)] else Dne));
    }

    method Get(s: nat, b: nat) returns (v: Value)
      requires Valid() && s < signals && b < depth
      ensures v == Cols[s][b]
    {
      v := cells[Slot(signals, s, b)];
    }

    method Set(s: nat, b: nat, v: Value)
      requires Valid() && s < signals && b < depth
      modifies this`Cols, cells
      ensures Valid() && Cols == old(Cols)[s := old(Cols)[s][b := v]]
    {
      ghost var before := Cols;
      cells[Slot(signals, s, b)] := v;
      Cols := Cols[s := Cols[s][b := v]];
      forall s': nat, b': nat | s' < signals && b' < depth
        ensures Slot(signals, s', b') < cells.Length && cells[Slot(signals, s', b')] == Cols[s'][b']
      {
        if Slot(signals, s', b') == Slot(signals, s, b) {
          SlotInjective(signals, s', b', s, b);
        }
      }
    }

    method Clear()
      requires Valid()
      modifies this`Cols, cells
      ensures Valid() && Cols == seq(signals, _ => seq(depth, _ => Dne))
    {
      for i := 0 to cells.Length
        invariant forall k :: 0 <= k < i ==> cells[k] == Dne
      {
        cells[i] := Dne;
      }
      forall s: nat, b: nat | s < signals && b < depth ensures Slot(signals, s, b) < cells.Length {
        SlotInRange(signals, depth, s, b);
      }
      Cols := seq(signals, _ => seq(depth, _ => Dne));
    }

    /** The memory of one row, as it is handed to the data callbacks. */
    method Row(b: nat) returns (row: seq<Value>)
      requires Valid() && b < depth
      ensures |row| == signals && forall s :: 0 <= s < signals ==> row[s] == Cols[s][b]
    {
      var from := signals * b;
      MulMonotone(signals, b + 1, depth);
      assert signals * (b + 1) == from + signals;
      row := cells[from..from + signals];
      forall s: nat | s < signals ensures row[s] == Cols[s][b] {
        assert Slot(signals, s, b) == from + s;
      }
    }
  }
}
