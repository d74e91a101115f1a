/**
 * The archive update at the end of `evaluate`, as functions on the list of
 * stored placements. The set is modelled as a sequence in iteration order; once
 * the archive is shown to hold at most one placement the order cannot matter.
 */
module Archive {
  import opened JavaLang
  import opened Locations
  import opened Placements

  /** The iterator loop: walk the archive with a running best, initially the
      candidate's Obj; remove each stored placement whose Obj is strictly
      greater than the running best, otherwise keep it and lower the best to it. */
  function Prune(archive: seq<Placement>, best: real): (kept: seq<Placement>)
    ensures |kept| <= |archive|
    ensures forall i :: 0 <= i < |kept| ==> kept[i] in archive
  {
    if archive == [] then []
    else if archive[0].obj > best then Prune(archive[1..], best)
    else [archive[0]] + Prune(archive[1..], archive[0].obj)
  }

  /** The duplicate test: some kept placement `equals` the candidate's location list. */
  predicate AlreadyStored(kept: seq<Placement>, locations: seq<Location>)
  {
    exists i :: 0 <= i < |kept| && Placements.Equals(kept[i], Is(locations))
  }

  /** The archive after a feasible candidate `sol` is evaluated. */
  function Update(archive: seq<Placement>, sol: Placement): seq<Placement>
  {
    var kept := Prune(archive, sol.obj);
    if AlreadyStored(kept, sol.placement) then kept else kept + [sol]
  }

  /** Because `Placement.equals` accepts every list, the duplicate test just
      asks whether anything survived the pruning. */
  lemma AlreadyStoredIffNonEmpty(kept: seq<Placement>, locations: seq<Location>)
    ensures AlreadyStored(kept, locations) <==> kept != []
  {
    if kept != [] {
      EqualsEveryList(kept[0], Is(locations));
    }
  }

  /** On an archive of at most one placement: an empty archive takes the
      candidate; a stored placement is replaced exactly when its Obj is strictly
      greater, and kept on a tie. */
  lemma UpdateOneSlot(archive: seq<Placement>, sol: Placement)
    requires |archive| <= 1
    ensures Update(archive, sol) ==
      (if archive == [] || archive[0].obj > sol.obj then [sol] else archive)
  {
    var kept := Prune(archive, sol.obj);
    AlreadyStoredIffNonEmpty(kept, sol.placement);
    if archive != [] {
      assert archive[1..] == [];
    }
  }

  /** The archive after a run of feasible candidates, starting empty. */
  function Stored(history: seq<Placement>): seq<Placement>
  {
    if history == [] then [] else Update(Stored(history[..|history| - 1]), history[|history| - 1])
  }

  /** `k` is the first position of a minimal Obj in `history`. */
  predicate FirstMinimum(history: seq<Placement>, k: int)
  {
    && 0 <= k < |history|
    && (forall j :: 0 <= j < |history| ==> history[k].obj <= history[j].obj)
    && (forall j :: 0 <= j < k ==> history[j].obj > history[k].obj)
  }

  /** The archive holds nothing before the first feasible candidate and
      afterwards exactly one placement: the earliest one of minimal Obj. */
  lemma {:induction false} StoredIsFirstMinimum(history: seq<Placement>)
    ensures |Stored(history)| <= 1
    ensures Stored(history) == [] <==> history == []
    ensures history != [] ==> exists k :: FirstMinimum(history, k)
    ensures forall k :: FirstMinimum(history, k) ==> Stored(history) == [history[k]]
  {
    if history != [] {
      var n := |history| - 1;
      var prefix, sol := history[..n], history[n];
      assert history == prefix + [sol];
      StoredIsFirstMinimum(prefix);
      UpdateOneSlot(Stored(prefix), sol);
      var k1 := 0;
      if prefix == [] {
        assert FirstMinimum(history, 0);
      } else {
        k1 := FirstMinimumStep(prefix, sol);
      }
      assert FirstMinimum(history, k1) && Stored(history) == [history[k1]];
      forall k | FirstMinimum(history, k)
        ensures Stored(history) == [history[k]]
      {
        FirstMinimumUnique(history, k, k1);
      }
    }
  }

  /** Appending a candidate moves the first minimum to it exactly when it is
      strictly smaller than the previous one. */
  lemma FirstMinimumStep(prefix: seq<Placement>, sol: Placement) returns (k1: int)
    requires prefix != []
    requires exists k :: FirstMinimum(prefix, k)
    ensures FirstMinimum(prefix + [sol], k1)
    ensures forall k0 :: FirstMinimum(prefix, k0) ==>
      Update([prefix[k0]], sol) == [(prefix + [sol])[k1]]
  {
    var k0 :| FirstMinimum(prefix, k0);
    var h := prefix + [sol];
    k1 := if prefix[k0].obj > sol.obj then |prefix| else k0;
    assert forall j :: 0 <= j < |prefix| ==> h[j] == prefix[j];
    forall k | FirstMinimum(prefix, k)
      ensures Update([prefix[k]], sol) == [h[k1]]
    {
      FirstMinimumUnique(prefix, k, k0);
      UpdateOneSlot([prefix[k]], sol);
    }
  }

  lemma FirstMinimumUnique(history: seq<Placement>, k1: int, k2: int)
    requires FirstMinimum(history, k1) && FirstMinimum(history, k2)
    ensures k1 == k2
  {
    assert history[k1].obj == history[k2].obj;
  }

  /** An archive that started empty never holds more than one placement, and
      the stored Obj never increases as feasible candidates arrive. */
  lemma StoredObjNeverIncreases(history: seq<Placement>, sol: Placement)
    requires history != []
    ensures Stored(history + [sol])[0].obj <= Stored(history)[0].obj
    ensures Stored(history + [sol])[0].obj <= sol.obj
  {
    assert (history + [sol])[..|history|] == history;
    StoredIsFirstMinimum(history);
    UpdateOneSlot(Stored(history), sol);
  }
}
