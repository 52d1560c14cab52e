/**
 * scripts/admin/addFacultiesAdmin.js: seeding the `faculties` collection from a JSON list, one
 * document per faculty, in write batches committed every 400 writes and once more at the end.
 */
module ImportAdmin {
  import opened Wrappers
  import opened Json
  import opened TransformFaculty

  const BatchSize := 400

  /** One `batch.set(ref, data)`: the document id and its fields. */
  datatype Write = Write(docId: string, fields: map<string, Value>)

  /**
   * The write for one faculty: id `String(f.id)`, and the faculty's own fields with `avgRating`
   * and `totalRatings` set to 0 and `createdAt` to the server timestamp, over any fields of
   * those names.
   */
  function WriteOf(f: map<string, Value>): Write {
    Write(ToStr(Member(Some(Obj(f)), "id")),
          f + map["avgRating" := Num(0), "totalRatings" := Num(0), "createdAt" := ServerTimestamp])
  }

  /**
   * The document keeps every field of the faculty except the three it sets, adds those three,
   * and has the faculty's `id` rendered as text as its name.
   */
  lemma WriteOfFields(f: map<string, Value>)
    ensures WriteOf(f).docId == ToStr(Member(Some(Obj(f)), "id"))
    ensures WriteOf(f).fields.Keys == f.Keys + {"avgRating", "totalRatings", "createdAt"}
    ensures WriteOf(f).fields["avgRating"] == Num(0) && WriteOf(f).fields["totalRatings"] == Num(0)
    ensures WriteOf(f).fields["createdAt"] == ServerTimestamp
    ensures forall k :: k in f && k !in {"avgRating", "totalRatings", "createdAt"} ==> WriteOf(f).fields[k] == f[k]
  {
  }

  /** The writes of a list of faculties, in order. */
  function Writes(fs: seq<map<string, Value>>): (ws: seq<Write>)
    ensures |ws| == |fs|
  {
    if fs == [] then [] else Writes(fs[..|fs| - 1]) + [WriteOf(fs[|fs| - 1])]
  }

  /** One write per faculty, the `i`-th for the `i`-th faculty. */
  lemma {:induction false} WritesInOrder(fs: seq<map<string, Value>>)
    ensures |Writes(fs)| == |fs|
    ensures forall i :: 0 <= i < |fs| ==> Writes(fs)[i] == WriteOf(fs[i])
  {
    if fs != [] {
      WritesInOrder(fs[..|fs| - 1]);
    }
  }

  lemma WritesStep(fs: seq<map<string, Value>>, i: nat)
    requires i < |fs|
    ensures Writes(fs[..i + 1]) == Writes(fs[..i]) + [WriteOf(fs[i])]
  {
    assert fs[..i + 1][..i] == fs[..i];
  }

  /** How the count splits into full batches and the open one when it goes up by one. */
  lemma CountStep(c: nat)
    ensures (c + 1) % BatchSize == 0 ==> (c + 1) / BatchSize == c / BatchSize + 1 && c % BatchSize + 1 == BatchSize
    ensures (c + 1) % BatchSize != 0 ==> (c + 1) / BatchSize == c / BatchSize && (c + 1) % BatchSize == c % BatchSize + 1
  {
  }

  lemma CommitCount(n: nat)
    ensures n / BatchSize + (if n % BatchSize != 0 then 1 else 0) == (n + BatchSize - 1) / BatchSize
  {
  }

  /** The committed batches one after the other. */
  function Flatten(batches: seq<seq<Write>>): seq<Write> {
    if batches == [] then [] else Flatten(batches[..|batches| - 1]) + batches[|batches| - 1]
  }

  lemma FlattenSnoc(batches: seq<seq<Write>>, b: seq<Write>)
    ensures Flatten(batches + [b]) == Flatten(batches) + b
  {
    assert (batches + [b])[..|batches|] == batches;
  }

  /** A list of batches that are all full. */
  predicate AllFull(batches: seq<seq<Write>>) {
    forall j :: 0 <= j < |batches| ==> |batches[j]| == BatchSize
  }

  /**
   * One iteration: `batch.set(...)`, `count++`, and the commit of the batch when the count
   * reaches a multiple of 400.
   */
  method AddWrite(commits: seq<seq<Write>>, batch: seq<Write>, count: nat, w: Write)
    returns (commits': seq<seq<Write>>, batch': seq<Write>, count': nat)
    requires |batch| == count % BatchSize && |commits| == count / BatchSize && AllFull(commits)
    ensures Flatten(commits') + batch' == Flatten(commits) + batch + [w]
    ensures count' == count + 1
    ensures |batch'| == count' % BatchSize && |commits'| == count' / BatchSize && AllFull(commits')
  {
    CountStep(count);
    batch' := batch + [w];
    count' := count + 1;
    commits' := commits;
    if count' % BatchSize == 0 {
      FlattenSnoc(commits, batch');
      commits' := commits + [batch'];
      batch' := [];
    }
  }

  /** The final `if (count % batchSize !== 0) batch.commit()` leaves batches of the promised sizes. */
  lemma CloseBatches(commits: seq<seq<Write>>, batch: seq<Write>, count: nat)
    requires |batch| == count % BatchSize && |commits| == count / BatchSize && AllFull(commits)
    ensures var cs := if count % BatchSize != 0 then commits + [batch] else commits;
            && Flatten(cs) == Flatten(commits) + batch
            && (forall i :: 0 <= i < |cs| ==> 1 <= |cs[i]| <= BatchSize)
            && (forall i :: 0 <= i < |cs| - 1 ==> |cs[i]| == BatchSize)
            && |cs| == (count + BatchSize - 1) / BatchSize
  {
    CommitCount(count);
    if count % BatchSize != 0 {
      FlattenSnoc(commits, batch);
    }
  }

  /** The writes of a prefix of the list are that prefix of the writes. */
  lemma WritesPrefix(fs: seq<map<string, Value>>, i: nat)
    requires i <= |fs|
    ensures Writes(fs[..i]) == Writes(fs)[..i]
  {
    WritesInOrder(fs);
    WritesInOrder(fs[..i]);
  }

  /** Full batches hold 400 writes each. */
  lemma {:induction false} FlattenLength(batches: seq<seq<Write>>)
    requires AllFull(batches)
    ensures |Flatten(batches)| == |batches| * BatchSize
  {
    if batches != [] {
      FlattenLength(batches[..|batches| - 1]);
    }
  }

  /**
   * The committed batches are the first `|commits| * 400` writes, when they are full and, with the
   * open batch, make up the writes of a prefix of the list.
   */
  lemma CommittedPrefix(fs: seq<map<string, Value>>, i: nat, commits: seq<seq<Write>>, batch: seq<Write>)
    requires i <= |fs| && |commits| * BatchSize + |batch| == i
    requires AllFull(commits) && Flatten(commits) + batch == Writes(fs[..i])
    ensures Flatten(commits) == Writes(fs)[..|commits| * BatchSize]
  {
    var k := |commits| * BatchSize;
    FlattenLength(commits);
    WritesPrefix(fs, i);
    assert Flatten(commits) == (Flatten(commits) + batch)[..k];
    assert Writes(fs)[..i][..k] == Writes(fs)[..k];
  }

  /**
   * The `for` loop: every faculty's write added to the batches, committing every 400. `failsAt`
   * is the index of the commit that rejects, if any: the loop stops there, with the earlier
   * batches committed and the rest of the list never written.
   */
  method WriteAll(faculties: seq<map<string, Value>>, failsAt: Option<nat>)
    returns (commits: seq<seq<Write>>, batch: seq<Write>, count: nat, failed: bool)
    ensures AllFull(commits)
    ensures !failed ==> Flatten(commits) + batch == Writes(faculties) && count == |faculties|
    ensures !failed ==> |batch| == count % BatchSize && |commits| == count / BatchSize
    ensures !failed ==> failsAt.None? || failsAt.value >= |commits|
    ensures failed ==> failsAt == Some(|commits|) && (|commits| + 1) * BatchSize <= |faculties|
    ensures failed ==> Flatten(commits) == Writes(faculties)[..|commits| * BatchSize]
  {
    batch := [];
    count := 0;
    commits := [];
    failed := false;
    for i := 0 to |faculties|
      invariant count == i
      invariant Flatten(commits) + batch == Writes(faculties[..i])
      invariant |batch| == count % BatchSize && |commits| == count / BatchSize && AllFull(commits)
      invariant failsAt.None? || failsAt.value >= |commits|
    {
      if (count + 1) % BatchSize == 0 && failsAt == Some(|commits|) {
        CountStep(count);
        CommittedPrefix(faculties, i, commits, batch);
        failed := true;
        return;
      }
      WritesStep(faculties, i);
      CountStep(count);
      commits, batch, count := AddWrite(commits, batch, count, WriteOf(faculties[i]));
    }
    assert faculties[..|faculties|] == faculties;
  }

  /**
   * The import. `failsAt` is the index of the commit that rejects, if any; a rejection ends the
   * script. Returns the batches committed, in order, the final count and whether every commit
   * succeeded. Without a rejection every faculty is written exactly once, in order, under its
   * id; every commit holds between 1 and 400 writes, all but the last exactly 400; there are
   * `ceil(n / 400)` commits (none for an empty list); the reported count is the number of
   * faculties. A rejection happens exactly when the rejected commit is one of those; then only
   * the batches before it are committed, each full, holding the writes of the first faculties.
   */
  method Import(faculties: seq<map<string, Value>>, failsAt: Option<nat>)
    returns (commits: seq<seq<Write>>, count: nat, ok: bool)
    ensures ok <==> failsAt.None? || failsAt.value >= (|faculties| + BatchSize - 1) / BatchSize
    ensures ok ==> Flatten(commits) == Writes(faculties)
    ensures ok ==> forall i :: 0 <= i < |commits| ==> 1 <= |commits[i]| <= BatchSize
    ensures ok ==> forall i :: 0 <= i < |commits| - 1 ==> |commits[i]| == BatchSize
    ensures ok ==> |commits| == (|faculties| + BatchSize - 1) / BatchSize
    ensures ok ==> count == |faculties|
    ensures !ok ==> |commits| == failsAt.value && AllFull(commits)
    ensures !ok ==> |commits| * BatchSize < |faculties| && Flatten(commits) == Writes(faculties)[..|commits| * BatchSize]
  {
    var batch, failed;
    commits, batch, count, failed := WriteAll(faculties, failsAt);
    if failed {
      ok := false;
      return;
    }
    CloseBatches(commits, batch, count);
    if count % BatchSize != 0 {
      if failsAt == Some(|commits|) {
        assert faculties[..|faculties|] == faculties;
        CommittedPrefix(faculties, |faculties|, commits, batch);
        ok := false;
        return;
      }
      commits := commits + [batch];
    }
    ok := true;
  }

  /**
   * Importing the file the transform writes names the `i`-th document after the `i`-th raw
   * item's id, as `String(item.id)` ("undefined" for an item without one).
   */
  lemma ImportedDocIds(items: seq<RawItem>)
    ensures var ws := Writes(ToJsonAll(Transform(items)));
            |ws| == |items| && forall i :: 0 <= i < |items| ==> ws[i].docId == ToStr(items[i].id)
  {
    var fs := ToJsonAll(Transform(items));
    WritesInOrder(fs);
    forall i | 0 <= i < |items| ensures Writes(fs)[i].docId == ToStr(items[i].id) {
      ToJsonId(Record(items[i]));
    }
  }
}
