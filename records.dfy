/** The records held by the four panels and the list operations the handlers
    apply to them: `filter` by id (delete), `find` by id (toggle, edit) and
    `map` over matching ids (note edit). */
module Records {

  datatype Option<T> = None | Some(value: T)

  /** A stored record: its numeric id (a `Date.now()` timestamp at creation)
      and the fields of its kind. */
  datatype Record<F> = Record(id: int, fields: F)

  datatype TodoFields = TodoFields(text: string, completed: bool)
  datatype NoteFields = NoteFields(title: string, content: string)
  datatype LinkFields = LinkFields(title: string, url: string)
  datatype ImageFields = ImageFields(url: string, caption: string)

  type Todo = Record<TodoFields>
  type Note = Record<NoteFields>
  type Link = Record<LinkFields>
  type Image = Record<ImageFields>

  /** The ids of `xs`, in list order. */
  function Ids<F>(xs: seq<Record<F>>): (ids: seq<int>)
    ensures |ids| == |xs|
    ensures forall k :: 0 <= k < |xs| ==> ids[k] == xs[k].id
  {
    seq(|xs|, k requires 0 <= k < |xs| => xs[k].id)
  }

  predicate HasId<F>(xs: seq<Record<F>>, id: int)
  {
    exists k :: 0 <= k < |xs| && xs[k].id == id
  }

  /** No two records share an id. The source never checks this. */
  ghost predicate UniqueIds<F>(xs: seq<Record<F>>)
  {
    forall i, j :: 0 <= i < j < |xs| ==> xs[i].id != xs[j].id
  }

  /** `xs.find(r => r.id === id)`, as the position of the first match. */
  function FindFirst<F>(xs: seq<Record<F>>, id: int): (r: Option<nat>)
    ensures r.None? <==> !HasId(xs, id)
    ensures r.Some? ==> r.value < |xs| && xs[r.value].id == id
    ensures r.Some? ==> forall k :: 0 <= k < r.value ==> xs[k].id != id
  {
    if xs == [] then None
    else if xs[0].id == id then Some(0)
    else match FindFirst(xs[1..], id)
      case None => None
      case Some(k) => Some(k + 1)
  }

  /** `xs.filter(r => r.id !== id)`: every record with that id is dropped. */
  function RemoveId<F>(xs: seq<Record<F>>, id: int): (r: seq<Record<F>>)
    ensures |r| <= |xs|
    ensures !HasId(r, id)
    ensures !HasId(xs, id) ==> r == xs
  {
    if xs == [] then []
    else if xs[0].id == id then RemoveId(xs[1..], id)
    else [xs[0]] + RemoveId(xs[1..], id)
  }

  /** Deleting adds nothing and keeps every record whose id differs. */
  lemma {:induction false} RemoveIdKeepsOthers<F>(xs: seq<Record<F>>, id: int)
    ensures forall k :: 0 <= k < |RemoveId(xs, id)| ==> RemoveId(xs, id)[k] in xs
    ensures forall k :: 0 <= k < |xs| && xs[k].id != id ==> xs[k] in RemoveId(xs, id)
  {
    if xs != [] {
      RemoveIdKeepsOthers(xs[1..], id);
      var r := RemoveId(xs, id);
      var rest := RemoveId(xs[1..], id);
      assert forall x :: x in xs[1..] ==> x in xs;
      if xs[0].id != id {
        assert r == [xs[0]] + rest;
        forall k | 0 <= k < |xs| && xs[k].id != id ensures xs[k] in r {
          if k > 0 { assert xs[k] == xs[1..][k - 1]; }
        }
      } else {
        forall k | 0 <= k < |xs| && xs[k].id != id ensures xs[k] in r {
          assert k > 0 && xs[k] == xs[1..][k - 1];
        }
      }
    }
  }

  /** Removing by id keeps the surviving records in their original relative
      order: it distributes over concatenation. */
  lemma {:induction false} RemoveIdAppend<F>(a: seq<Record<F>>, b: seq<Record<F>>, id: int)
    ensures RemoveId(a + b, id) == RemoveId(a, id) + RemoveId(b, id)
  {
    if a == [] {
      assert a + b == b;
    } else {
      var ab := a + b;
      assert ab[0] == a[0];
      assert ab[1..] == a[1..] + b;
      RemoveIdAppend(a[1..], b, id);
      if a[0].id != id {
        calc {
          RemoveId(ab, id);
          [a[0]] + RemoveId(a[1..] + b, id);
          [a[0]] + (RemoveId(a[1..], id) + RemoveId(b, id));
          ([a[0]] + RemoveId(a[1..], id)) + RemoveId(b, id);
        }
      }
    }
  }

  /** When ids are unique, deleting removes exactly one record if the id is
      present and none otherwise. */
  lemma {:induction false} RemoveIdUniqueLength<F>(xs: seq<Record<F>>, id: int)
    requires UniqueIds(xs)
    ensures |RemoveId(xs, id)| == if HasId(xs, id) then |xs| - 1 else |xs|
  {
    if xs != [] {
      assert UniqueIds(xs[1..]);
      RemoveIdUniqueLength(xs[1..], id);
      if xs[0].id == id {
        assert !HasId(xs[1..], id);
      } else {
        assert HasId(xs, id) ==> HasId(xs[1..], id);
      }
    }
  }

  /** Adding a record under a fresh id and then deleting that id gives back
      the original list. */
  lemma AddThenRemove<F>(xs: seq<Record<F>>, x: Record<F>)
    requires !HasId(xs, x.id)
    ensures RemoveId(xs + [x], x.id) == xs
  {
    RemoveIdAppend(xs, [x], x.id);
  }

  /** Every id in `xs` is below `bound`. */
  ghost predicate IdsBelow<F>(xs: seq<Record<F>>, bound: int)
  {
    forall k :: 0 <= k < |xs| ==> xs[k].id < bound
  }

  /** A record appended under an id larger than every existing id (the
      source's `Date.now()`, when the clock is strictly increasing between
      adds) keeps ids unique. */
  lemma AppendLaterIdKeepsUnique<F>(xs: seq<Record<F>>, x: Record<F>)
    requires UniqueIds(xs) && IdsBelow(xs, x.id)
    ensures UniqueIds(xs + [x])
  {
  }

  /** `todo.completed = !todo.completed` applied to the record `find`
      returns. */
  function Toggled(xs: seq<Todo>, id: int): (r: seq<Todo>)
    ensures Ids(r) == Ids(xs)
    ensures !HasId(xs, id) ==> r == xs
    ensures HasId(xs, id) ==> var k := FindFirst(xs, id).value;
      && r[k].fields == TodoFields(xs[k].fields.text, !xs[k].fields.completed)
      && forall j :: 0 <= j < |xs| && j != k ==> r[j] == xs[j]
  {
    match FindFirst(xs, id)
    case None => xs
    case Some(k) => xs[k := Record(id, TodoFields(xs[k].fields.text, !xs[k].fields.completed))]
  }

  /** `find` looks only at ids, so lists with the same ids agree on it. */
  lemma {:induction false} FindFirstByIds<F, G>(xs: seq<Record<F>>, ys: seq<Record<G>>, id: int)
    requires Ids(xs) == Ids(ys)
    ensures FindFirst(xs, id) == FindFirst(ys, id)
  {
    if xs != [] {
      assert xs[0].id == Ids(xs)[0] == Ids(ys)[0] == ys[0].id;
      assert Ids(xs[1..]) == Ids(xs)[1..] == Ids(ys)[1..] == Ids(ys[1..]);
      FindFirstByIds(xs[1..], ys[1..], id);
    }
  }

  /** Toggling the same id twice restores the list. */
  lemma ToggleTwice(xs: seq<Todo>, id: int)
    ensures Toggled(Toggled(xs, id), id) == xs
  {
    FindFirstByIds(Toggled(xs, id), xs, id);
  }

  /** `xs.map(r => r.id === id ? { ...r, ...f } : r)`: every record with that
      id takes the new fields and keeps its id and position. */
  function ReplaceFields<F>(xs: seq<Record<F>>, id: int, f: F): (r: seq<Record<F>>)
    ensures |r| == |xs|
    ensures forall k :: 0 <= k < |xs| ==> r[k].id == xs[k].id
    ensures forall k :: 0 <= k < |xs| && xs[k].id == id ==> r[k].fields == f
    ensures forall k :: 0 <= k < |xs| && xs[k].id != id ==> r[k] == xs[k]
  {
    if xs == [] then []
    else [if xs[0].id == id then Record(id, f) else xs[0]] + ReplaceFields(xs[1..], id, f)
  }

  /** An edit keeps every id where it was, so unique ids stay unique. */
  lemma ReplaceFieldsKeepsUnique<F>(xs: seq<Record<F>>, id: int, f: F)
    requires UniqueIds(xs)
    ensures UniqueIds(ReplaceFields(xs, id, f))
  {
  }

  /** Replacing with the same fields a second time changes nothing more. */
  lemma ReplaceFieldsIdempotent<F>(xs: seq<Record<F>>, id: int, f: F)
    ensures ReplaceFields(ReplaceFields(xs, id, f), id, f) == ReplaceFields(xs, id, f)
  {
    var once := ReplaceFields(xs, id, f);
    var twice := ReplaceFields(once, id, f);
    forall k | 0 <= k < |xs| ensures twice[k] == once[k] {
      assert once[k].id == xs[k].id;
    }
  }

  /** An edit whose id is not in the list leaves it as it was. */
  lemma ReplaceFieldsMissing<F>(xs: seq<Record<F>>, id: int, f: F)
    requires !HasId(xs, id)
    ensures ReplaceFields(xs, id, f) == xs
  {
  }
}
