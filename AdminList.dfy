/**
 * The two list edits the admin pages make to the records they hold after the
 * server has agreed: dropping the record with an id, and rewriting the one
 * with an id.
 */
module AdminList {

  /** `list.filter(x => x.id !== id)`. */
  function Remove<T(!new)>(xs: seq<T>, id: string, idOf: T -> string): (r: seq<T>)
    ensures forall x :: x in r <==> x in xs && idOf(x) != id
    ensures |r| <= |xs|
  {
    if xs == [] then []
    else if idOf(xs[0]) == id then Remove(xs[1..], id, idOf)
    else [xs[0]] + Remove(xs[1..], id, idOf)
  }

  /** Removal distributes over concatenation, so the records kept keep their order. */
  lemma {:induction false} RemoveAppend<T(!new)>(a: seq<T>, b: seq<T>, id: string, idOf: T -> string)
    ensures Remove(a + b, id, idOf) == Remove(a, id, idOf) + Remove(b, id, idOf)
  {
    if a != [] {
      assert (a + b)[0] == a[0];
      assert (a + b)[1..] == a[1..] + b;
      RemoveAppend(a[1..], b, id, idOf);
    } else {
      assert a + b == b;
    }
  }

  /** Removing an id no record has leaves the list as it is. */
  lemma {:induction false} RemoveAbsent<T(!new)>(xs: seq<T>, id: string, idOf: T -> string)
    requires forall i :: 0 <= i < |xs| ==> idOf(xs[i]) != id
    ensures Remove(xs, id, idOf) == xs
  {
    if xs != [] {
      RemoveAbsent(xs[1..], id, idOf);
      assert xs == [xs[0]] + xs[1..];
    }
  }

  /** With ids unique, removing an id that is present drops exactly one record. */
  lemma {:induction false} RemovePresent<T(!new)>(xs: seq<T>, id: string, idOf: T -> string, k: nat)
    requires k < |xs| && idOf(xs[k]) == id
    requires forall i :: 0 <= i < |xs| && i != k ==> idOf(xs[i]) != id
    ensures Remove(xs, id, idOf) == xs[..k] + xs[k + 1..]
  {
    var before, after := xs[..k], xs[k + 1..];
    assert xs == before + [xs[k]] + after;
    assert forall i :: 0 <= i < |before| ==> before[i] == xs[i];
    assert forall i :: 0 <= i < |after| ==> after[i] == xs[k + 1 + i];
    RemoveAppend(before + [xs[k]], after, id, idOf);
    RemoveAppend(before, [xs[k]], id, idOf);
    RemoveAbsent(before, id, idOf);
    RemoveAbsent(after, id, idOf);
    assert Remove([xs[k]], id, idOf) == [];
    assert before + [] == before;
  }

  /** `list.map(x => x.id === id ? edit(x) : x)`. */
  function Update<T(!new)>(xs: seq<T>, id: string, idOf: T -> string, edit: T -> T): (r: seq<T>)
    ensures |r| == |xs|
    ensures forall i :: 0 <= i < |xs| ==> r[i] == if idOf(xs[i]) == id then edit(xs[i]) else xs[i]
  {
    seq(|xs|, i requires 0 <= i < |xs| => if idOf(xs[i]) == id then edit(xs[i]) else xs[i])
  }

  /**
   * Setting a field twice is setting it once: an update that keeps the id and
   * settles the record after one application settles the list the same way.
   */
  lemma UpdateIdempotent<T(!new)>(xs: seq<T>, id: string, idOf: T -> string, edit: T -> T)
    requires forall x :: idOf(edit(x)) == idOf(x) && edit(edit(x)) == edit(x)
    ensures Update(Update(xs, id, idOf, edit), id, idOf, edit) == Update(xs, id, idOf, edit)
  {
    var once := Update(xs, id, idOf, edit);
    var twice := Update(once, id, idOf, edit);
    forall i | 0 <= i < |xs| ensures twice[i] == once[i] {
      if idOf(xs[i]) == id {
        assert idOf(once[i]) == id;
      }
    }
  }
}
