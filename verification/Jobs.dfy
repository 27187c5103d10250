/** Work handed from the capture stage to the sender, and the depth-1 slot that merges
    unsent work instead of dropping it. */
module Jobs {
  import opened Raster
  import opened Tiles

  /** One layer's update; the tile grid is that of the frame. Layer -1 is the stream
      without layers. */
  datatype LayerJob = LayerJob(layer: int, frame: Img, dirty: seq<bool>, key: bool)

  ghost predicate JobOK(j: LayerJob) {
    j.frame.Valid() && j.frame.w <= 65535 && j.frame.h <= 65535 && |j.dirty| == TilesFor(j.frame.w) * TilesFor(j.frame.h)
  }

  ghost predicate Unique(job: seq<LayerJob>) {
    forall k, l :: 0 <= k < l < |job| ==> job[k].layer != job[l].layer
  }

  /** The job by layer. */
  ghost function AsMap(job: seq<LayerJob>): map<int, LayerJob> {
    if job == [] then map[] else AsMap(job[..|job| - 1])[job[|job| - 1].layer := job[|job| - 1]]
  }

  function OrMasks(a: seq<bool>, b: seq<bool>): seq<bool>
    requires |a| == |b|
  {
    seq(|a|, k requires 0 <= k < |a| => a[k] || b[k])
  }

  /** A newer update of the same layer absorbs the older one: a key stays a key, equal
      grids are joined, anything else becomes a key. */
  function Combine(o: LayerJob, n: LayerJob): LayerJob {
    if n.key || o.key then n.(key := true)
    else if |n.dirty| == |o.dirty| then n.(dirty := OrMasks(n.dirty, o.dirty))
    else n.(key := true)
  }

  ghost function MergeMap(prior: map<int, LayerJob>, nw: map<int, LayerJob>): map<int, LayerJob> {
    map l | l in prior.Keys + nw.Keys ::
      if l in prior && l in nw then Combine(prior[l], nw[l]) else if l in nw then nw[l] else prior[l]
  }

  lemma {:induction false} AsMapKeys(job: seq<LayerJob>, l: int)
    ensures l in AsMap(job) <==> exists k :: 0 <= k < |job| && job[k].layer == l
    ensures l in AsMap(job) ==> AsMap(job)[l] in job && AsMap(job)[l].layer == l
  {
    if job != [] {
      var n := |job| - 1;
      AsMapKeys(job[..n], l);
      if exists k :: 0 <= k < n && job[k].layer == l {
        var k :| 0 <= k < n && job[k].layer == l;
        assert job[..n][k].layer == l;
      }
    }
  }

  lemma {:induction false} AsMapAt(job: seq<LayerJob>, k: nat)
    requires Unique(job) && k < |job|
    ensures job[k].layer in AsMap(job) && AsMap(job)[job[k].layer] == job[k]
  {
    var n := |job| - 1;
    if k < n {
      assert Unique(job[..n]);
      AsMapAt(job[..n], k);
      assert job[..n][k] == job[k];
    }
  }

  lemma AsMapUpdate(job: seq<LayerJob>, k: nat, j: LayerJob)
    requires Unique(job) && k < |job| && j.layer == job[k].layer
    ensures Unique(job[k := j]) && AsMap(job[k := j]) == AsMap(job)[j.layer := j]
  {
    var r := job[k := j];
    assert forall i :: 0 <= i < |r| ==> r[i].layer == job[i].layer;
    var m := AsMap(job)[j.layer := j];
    AsMapAt(job, k);
    forall l
      ensures l in AsMap(r) <==> l in m
      ensures l in m ==> AsMap(r)[l] == m[l]
    {
      AsMapKeys(r, l);
      AsMapKeys(job, l);
      if l in m {
        var i :| 0 <= i < |job| && job[i].layer == l;
        assert r[i].layer == l;
        AsMapAt(r, i);
        AsMapAt(job, i);
      }
    }
    assert AsMap(r) == m;
  }

  lemma AsMapAppend(job: seq<LayerJob>, j: LayerJob)
    ensures AsMap(job + [j]) == AsMap(job)[j.layer := j]
  {
  }

  lemma AsMapSnoc(job: seq<LayerJob>, k: nat)
    requires k < |job|
    ensures AsMap(job[..k + 1]) == AsMap(job[..k])[job[k].layer := job[k]]
  {
    assert job[..k + 1][..k] == job[..k];
  }

  method CombineLayer(o: LayerJob, n: LayerJob) returns (r: LayerJob)
    ensures r == Combine(o, n)
  {
    r := n.(key := n.key || o.key);
    if !r.key && |r.dirty| == |o.dirty| {
      var dirty := r.dirty;
      var k := 0;
      while k < |o.dirty|
        invariant 0 <= k <= |o.dirty| == |dirty|
        invariant forall i :: 0 <= i < |dirty| ==> dirty[i] == (n.dirty[i] || (i < k && o.dirty[i]))
      {
        if o.dirty[k] {
          dirty := dirty[k := true];
        }
        k := k + 1;
      }
      r := r.(dirty := dirty);
      assert dirty == OrMasks(n.dirty, o.dirty);
    } else if !r.key {
      r := r.(key := true);
    }
  }

  /** One unsent layer update into the new job: combined in place, or carried over. */
  method MergeOne(o: LayerJob, nw: seq<LayerJob>) returns (r: seq<LayerJob>)
    requires Unique(nw)
    ensures Unique(r)
    ensures AsMap(r) == AsMap(nw)[o.layer := if o.layer in AsMap(nw) then Combine(o, AsMap(nw)[o.layer]) else o]
  {
    hide Combine;
    var i := 0;
    while i < |nw| && nw[i].layer != o.layer
      invariant 0 <= i <= |nw| && forall m :: 0 <= m < i ==> nw[m].layer != o.layer
    {
      i := i + 1;
    }
    AsMapKeys(nw, o.layer);
    if i < |nw| {
      AsMapAt(nw, i);
      var c := CombineLayer(o, nw[i]);
      CombineKeepsLayer(o, nw[i]);
      AsMapUpdate(nw, i, c);
      r := nw[i := c];
    } else {
      AsMapAppend(nw, o);
      r := nw + [o];
    }
  }

  lemma MergeStep(prior: map<int, LayerJob>, nw: map<int, LayerJob>, o: LayerJob)
    requires o.layer !in prior
    ensures var m := MergeMap(prior, nw);
            MergeMap(prior[o.layer := o], nw) == m[o.layer := if o.layer in m then Combine(o, m[o.layer]) else o]
  {
  }

  lemma CombineKeepsLayer(o: LayerJob, n: LayerJob)
    ensures Combine(o, n).layer == n.layer
  {
  }

  /** Folds the unsent job into the new one, layer by layer. */
  method MergeJobs(prior: seq<LayerJob>, nw: seq<LayerJob>) returns (r: seq<LayerJob>)
    requires Unique(prior) && Unique(nw)
    ensures Unique(r) && AsMap(r) == MergeMap(AsMap(prior), AsMap(nw))
  {
    hide Combine;
    r := nw;
    assert prior[..0] == [];
    assert MergeMap(map[], AsMap(nw)) == AsMap(nw);
    var k := 0;
    while k < |prior|
      invariant 0 <= k <= |prior| && Unique(r)
      invariant AsMap(r) == MergeMap(AsMap(prior[..k]), AsMap(nw))
    {
      AsMapSnoc(prior, k);
      NotBefore(prior, k);
      MergeStep(AsMap(prior[..k]), AsMap(nw), prior[k]);
      r := MergeOne(prior[k], r);
      k := k + 1;
    }
    assert prior[..k] == prior;
  }

  lemma NotBefore(job: seq<LayerJob>, k: nat)
    requires Unique(job) && k < |job|
    ensures job[k].layer !in AsMap(job[..k])
  {
    AsMapKeys(job[..k], job[k].layer);
  }

  /** The depth-1 slot: `wake` is the one-token channel. */
  class Slot {
    var job: Option<seq<LayerJob>>
    var dropped: nat
    var wake: bool

    ghost predicate Valid()
      reads this
    {
      job.Some? ==> Unique(job.value)
    }

    ghost function Pending(): map<int, LayerJob>
      reads this
    {
      if job.Some? then AsMap(job.value) else map[]
    }

    constructor ()
      ensures Valid() && Pending() == map[] && dropped == 0 && !wake
    {
      job, dropped, wake := None, 0, false;
    }

    method Put(j: seq<LayerJob>)
      requires Valid() && Unique(j)
      modifies this
      ensures Valid() && wake && job.Some?
      ensures Pending() == MergeMap(old(Pending()), AsMap(j))
      ensures dropped == old(dropped) + if old(job.Some?) then 1 else 0
    {
      var merged := j;
      if job.Some? {
        merged := MergeJobs(job.value, j);
        dropped := dropped + 1;
      }
      assert MergeMap(map[], AsMap(j)) == AsMap(j);
      job := Some(merged);
      wake := true;
    }

    /** One locked look at the slot; the caller waits for `wake` when it is empty. */
    method TryTake() returns (j: Option<seq<LayerJob>>)
      requires Valid()
      modifies this`job
      ensures Valid() && job == None && j == old(job)
      ensures j.Some? ==> Unique(j.value) && AsMap(j.value) == old(Pending())
    {
      j := job;
      job := None;
    }
  }
}
