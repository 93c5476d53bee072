/** The workout log: an ordered sequence of records, newest first. Adding
    prepends, updating merge-patches every record with the given id in
    place, deleting keeps the records whose id differs. */
module Workouts {
  import opened Wrappers

  /** A workout record. Every field is text in the TypeScript store, the duration
      included; `kind` is the TypeScript `type` field (a Dafny keyword). The
      intensity is free text: the store accepts any string. */
  datatype Workout = Workout(id: string, kind: string, duration: string,
                             intensity: string, notes: string, date: string)

  /** A partial workout record; `None` is a field the caller left out. The
      id is patchable too, as in the TypeScript store's partial record type. */
  datatype WorkoutPatch = WorkoutPatch(id: Option<string>, kind: Option<string>,
                                       duration: Option<string>, intensity: Option<string>,
                                       notes: Option<string>, date: Option<string>)

  datatype Field = Id | Kind | Duration | Intensity | Notes | Date

  function Get(w: Workout, f: Field): string {
    match f
    case Id => w.id
    case Kind => w.kind
    case Duration => w.duration
    case Intensity => w.intensity
    case Notes => w.notes
    case Date => w.date
  }

  function PatchGet(p: WorkoutPatch, f: Field): Option<string> {
    match f
    case Id => p.id
    case Kind => p.kind
    case Duration => p.duration
    case Intensity => p.intensity
    case Notes => p.notes
    case Date => p.date
  }

  /** Merge-patch of one record: supplied fields replace, the rest stay. */
  function Merge(w: Workout, p: WorkoutPatch): (r: Workout)
    ensures forall f :: PatchGet(p, f).Some? ==> Get(r, f) == PatchGet(p, f).value
    ensures forall f :: PatchGet(p, f).None? ==> Get(r, f) == Get(w, f)
  {
    Workout(p.id.GetOr(w.id), p.kind.GetOr(w.kind), p.duration.GetOr(w.duration),
            p.intensity.GetOr(w.intensity), p.notes.GetOr(w.notes), p.date.GetOr(w.date))
  }

  /** Some record of the log carries this id. */
  predicate HasId(ws: seq<Workout>, id: string) {
    exists i :: 0 <= i < |ws| && ws[i].id == id
  }

  /** No two records of the log share an id. The store does not enforce
      this: the caller supplies the ids. */
  predicate UniqueIds(ws: seq<Workout>) {
    forall i, j :: 0 <= i < j < |ws| ==> ws[i].id != ws[j].id
  }

  /** How many records carry this id. */
  function CountId(ws: seq<Workout>, id: string): (n: nat)
    ensures n <= |ws|
    ensures n == 0 <==> !HasId(ws, id)
  {
    if ws == [] then 0
    else (if ws[0].id == id then 1 else 0) + CountId(ws[1..], id)
  }

  /** Adding a workout puts it in front of the log. The caller supplies id
      and date; nothing here makes the id fresh. */
  function Add(ws: seq<Workout>, w: Workout): (r: seq<Workout>)
    ensures |r| == |ws| + 1
    ensures r[0] == w && r[1..] == ws
  {
    [w] + ws
  }

  /** Updating merge-patches every record whose id matches, in place, and
      leaves every other record as it was. */
  function Update(ws: seq<Workout>, id: string, p: WorkoutPatch): (r: seq<Workout>)
    ensures |r| == |ws|
    ensures forall i :: 0 <= i < |ws| && ws[i].id == id ==> r[i] == Merge(ws[i], p)
    ensures forall i :: 0 <= i < |ws| && ws[i].id != id ==> r[i] == ws[i]
    ensures !HasId(ws, id) ==> r == ws
  {
    if ws == [] then []
    else [if ws[0].id == id then Merge(ws[0], p) else ws[0]] + Update(ws[1..], id, p)
  }

  /** Deleting keeps exactly the records whose id differs: none with the
      id survives, and the count drops by the number of records with it. */
  function Delete(ws: seq<Workout>, id: string): (r: seq<Workout>)
    ensures forall i :: 0 <= i < |r| ==> r[i].id != id
    ensures |r| <= |ws|
    ensures !HasId(ws, id) ==> r == ws
  {
    if ws == [] then []
    else if ws[0].id == id then Delete(ws[1..], id)
    else [ws[0]] + Delete(ws[1..], id)
  }

  /** Deleting drops exactly as many records as carry the id. */
  lemma {:induction false} DeleteCount(ws: seq<Workout>, id: string)
    ensures |Delete(ws, id)| == |ws| - CountId(ws, id)
    decreases |ws|
  {
    if ws != [] {
      DeleteCount(ws[1..], id);
    }
  }

  /** A record survives deletion exactly when it was logged with another id. */
  lemma {:induction false} DeleteMembers(ws: seq<Workout>, id: string, w: Workout)
    ensures w in Delete(ws, id) <==> w in ws && w.id != id
    decreases |ws|
  {
    if ws != [] {
      DeleteMembers(ws[1..], id, w);
      assert w in ws <==> w == ws[0] || w in ws[1..];
    }
  }

  /** Deletion works piecewise: what survives of a concatenation is what
      survives of each part, in the same order. */
  lemma {:induction false} DeleteConcat(a: seq<Workout>, b: seq<Workout>, id: string)
    ensures Delete(a + b, id) == Delete(a, id) + Delete(b, id)
    decreases |a|
  {
    if a == [] {
      assert a + b == b;
    } else {
      assert (a + b)[0] == a[0] && (a + b)[1..] == a[1..] + b;
      DeleteConcat(a[1..], b, id);
    }
  }

  /** Order is kept: a surviving record lands at the position given by the
      number of survivors before it. */
  lemma DeletePosition(ws: seq<Workout>, id: string, i: int)
    requires 0 <= i < |ws| && ws[i].id != id
    ensures |Delete(ws[..i], id)| < |Delete(ws, id)|
    ensures Delete(ws, id)[|Delete(ws[..i], id)|] == ws[i]
  {
    assert ws == ws[..i] + ([ws[i]] + ws[i+1..]);
    DeleteConcat(ws[..i], [ws[i]] + ws[i+1..], id);
    assert ([ws[i]] + ws[i+1..])[1..] == ws[i+1..];
  }

  /** ... and survivors keep their relative order. */
  lemma DeletePositionsIncrease(ws: seq<Workout>, id: string, i: int, j: int)
    requires 0 <= i < j <= |ws| && ws[i].id != id
    ensures |Delete(ws[..i], id)| < |Delete(ws[..j], id)|
  {
    assert ws[..j] == ws[..i] + ws[i..j];
    DeleteConcat(ws[..i], ws[i..j], id);
    assert ws[i..j][0] == ws[i];
  }

  /** With unique ids, the one record that carries the id is counted once. */
  lemma {:induction false} UniqueCountOne(ws: seq<Workout>, id: string)
    requires UniqueIds(ws) && HasId(ws, id)
    ensures CountId(ws, id) == 1
    decreases |ws|
  {
    assert UniqueIds(ws[1..]) by {
      forall i, j | 0 <= i < j < |ws[1..]|
        ensures ws[1..][i].id != ws[1..][j].id
      {
        assert ws[1..][i] == ws[i + 1] && ws[1..][j] == ws[j + 1];
      }
    }
    if ws[0].id == id {
      forall k | 0 <= k < |ws[1..]| ensures ws[1..][k].id != id {
        assert ws[1..][k] == ws[k + 1];
      }
    } else {
      var k :| 0 <= k < |ws| && ws[k].id == id;
      assert ws[1..][k - 1].id == id;
      UniqueCountOne(ws[1..], id);
    }
  }

  /** With unique ids, deleting a present id removes exactly one record. */
  lemma {:induction false} DeleteUniqueShrinksByOne(ws: seq<Workout>, id: string)
    requires UniqueIds(ws) && HasId(ws, id)
    ensures |Delete(ws, id)| == |ws| - 1
  {
    UniqueCountOne(ws, id);
    DeleteCount(ws, id);
  }

  /** With unique ids, deleting the id of record `i` is removing index `i`. */
  lemma DeleteUniqueRemovesIndex(ws: seq<Workout>, id: string, i: int)
    requires UniqueIds(ws) && 0 <= i < |ws| && ws[i].id == id
    ensures Delete(ws, id) == ws[..i] + ws[i+1..]
  {
    assert ws == ws[..i] + ([ws[i]] + ws[i+1..]);
    DeleteConcat(ws[..i], [ws[i]] + ws[i+1..], id);
    DeleteConcat([ws[i]], ws[i+1..], id);
    assert !HasId(ws[..i], id) by {
      forall k | 0 <= k < i ensures ws[..i][k].id != id {
        assert ws[..i][k] == ws[k];
      }
    }
    var tail := ws[i+1..];
    assert !HasId(tail, id) by {
      forall k | 0 <= k < |tail| ensures tail[k].id != id {
        assert tail[k] == ws[i + 1 + k];
      }
    }
  }

  /** Deleting is idempotent. */
  lemma DeleteIdempotent(ws: seq<Workout>, id: string)
    ensures Delete(Delete(ws, id), id) == Delete(ws, id)
  {
  }

  /** Deleting the id of a workout just added with a fresh id undoes the add. */
  lemma DeleteUndoesAdd(ws: seq<Workout>, w: Workout)
    requires !HasId(ws, w.id)
    ensures Delete(Add(ws, w), w.id) == ws
  {
  }

  /** The log keeps unique ids across an add exactly when the new id is fresh. */
  lemma AddKeepsUnique(ws: seq<Workout>, w: Workout)
    ensures UniqueIds(Add(ws, w)) <==> UniqueIds(ws) && !HasId(ws, w.id)
  {
  }

  /** Deleting never introduces an id the log did not have. */
  lemma DeleteKeepsIdsFrom(ws: seq<Workout>, id: string, x: string)
    requires HasId(Delete(ws, id), x)
    ensures HasId(ws, x) && x != id
  {
    var r := Delete(ws, id);
    var k :| 0 <= k < |r| && r[k].id == x;
    DeleteMembers(ws, id, r[k]);
    var j :| 0 <= j < |ws| && ws[j] == r[k];
  }

  /** Deleting keeps unique ids unique. */
  lemma {:induction false} DeleteKeepsUnique(ws: seq<Workout>, id: string)
    requires UniqueIds(ws)
    ensures UniqueIds(Delete(ws, id))
    decreases |ws|
  {
    if ws != [] {
      var tail := ws[1..];
      assert ws == Add(tail, ws[0]);
      AddKeepsUnique(tail, ws[0]);
      DeleteKeepsUnique(tail, id);
      if ws[0].id != id {
        if HasId(Delete(tail, id), ws[0].id) {
          DeleteKeepsIdsFrom(tail, id, ws[0].id);
        }
        AddKeepsUnique(Delete(tail, id), ws[0]);
        assert Delete(ws, id) == Add(Delete(tail, id), ws[0]);
      }
    }
  }

  /** With unique ids, updating the id of record `i` replaces that one record. */
  lemma UpdateUniqueReplacesIndex(ws: seq<Workout>, id: string, p: WorkoutPatch, i: int)
    requires UniqueIds(ws) && 0 <= i < |ws| && ws[i].id == id
    ensures Update(ws, id, p) == ws[i := Merge(ws[i], p)]
  {
  }

  /** A patch that leaves the id alone keeps every record's id, so unique
      ids stay unique. */
  lemma UpdateKeepsIds(ws: seq<Workout>, id: string, p: WorkoutPatch)
    requires p.id.None? || p.id == Some(id)
    ensures forall i :: 0 <= i < |ws| ==> Update(ws, id, p)[i].id == ws[i].id
    ensures UniqueIds(ws) ==> UniqueIds(Update(ws, id, p))
  {
  }

  /** Deleting after updating the same id (with a patch that keeps ids)
      is just deleting: the update only touched records that go away. */
  lemma {:induction false} DeleteAfterUpdate(ws: seq<Workout>, id: string, p: WorkoutPatch)
    requires p.id.None? || p.id == Some(id)
    ensures Delete(Update(ws, id, p), id) == Delete(ws, id)
    decreases |ws|
  {
    if ws != [] {
      var u := Update(ws, id, p);
      assert u[1..] == Update(ws[1..], id, p);
      DeleteAfterUpdate(ws[1..], id, p);
    }
  }
}
