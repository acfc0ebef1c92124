/**
 * What the exploration one-off jobs share: the exploration records they map
 * over, the (key, value) pairs a map yields, and the grouping of those
 * pairs by key that hands each reduce call its values.
 */
module MapReduce {
  import opened Common

  /** One (key, value) pair yielded by a map or a reduce. */
  datatype Emission<V> = Emission(key: string, value: V)

  /** A state of an exploration: its name and the html strings of its content. */
  datatype State = State(name: string, htmlStrings: seq<string>)

  /**
   * An `ExplorationModel` as stored: its id, the soft-delete flag, the states
   * schema version and the states in the order the states dict holds them.
   * The jobs that load an exploration from the model examine these stored
   * states directly; the loader's conversion of them is not modelled.
   */
  datatype ExplorationModel = ExplorationModel(
    id: string, deleted: bool, statesSchemaVersion: int, states: seq<State>)

  /** Python `''.join(pieces)`. */
  function Concat(pieces: seq<string>): (s: string)
    ensures |s| == Sum(Lengths(pieces))
  {
    if pieces == [] then "" else Concat(pieces[..|pieces| - 1]) + pieces[|pieces| - 1]
  }

  /** Joining distributes over concatenation of the pieces. */
  lemma {:induction false} ConcatAppend(a: seq<string>, b: seq<string>)
    ensures Concat(a + b) == Concat(a) + Concat(b)
    decreases |b|
  {
    if b == [] {
      assert a + b == a;
    } else {
      var init := b[..|b| - 1];
      var last := b[|b| - 1];
      assert (a + b)[..|a + b| - 1] == a + init;
      assert (a + b)[|a + b| - 1] == last;
      ConcatAppend(a, init);
      calc {
        Concat(a + b);
        Concat(a + init) + last;
        Concat(a) + Concat(init) + last;
        { assert Concat(b) == Concat(init) + last; }
        Concat(a) + Concat(b);
      }
    }
  }

  /** The join of a single piece is that piece. */
  lemma ConcatSingle(x: string)
    ensures Concat([x]) == x
  {
    assert [x][..0] == [];
  }

  function Lengths(pieces: seq<string>): (ls: seq<int>)
    ensures |ls| == |pieces| && forall i :: 0 <= i < |pieces| ==> ls[i] == |pieces[i]|
  {
    if pieces == [] then [] else Lengths(pieces[..|pieces| - 1]) + [|pieces[|pieces| - 1]|]
  }

  /** The values emitted under `key`, in emission order: what the reduce call for `key` receives. */
  function ValuesFor<V>(es: seq<Emission<V>>, key: string): (vs: seq<V>)
    ensures |vs| <= |es|
  {
    if es == [] then []
    else ValuesFor(es[..|es| - 1], key) + (if es[|es| - 1].key == key then [es[|es| - 1].value] else [])
  }

  lemma {:induction false} ValuesForAppend<V>(a: seq<Emission<V>>, b: seq<Emission<V>>, key: string)
    ensures ValuesFor(a + b, key) == ValuesFor(a, key) + ValuesFor(b, key)
    decreases |b|
  {
    if b == [] {
      assert a + b == a;
    } else {
      var init := b[..|b| - 1];
      assert (a + b)[..|a + b| - 1] == a + init;
      ValuesForAppend(a, init, key);
    }
  }
}
