/** The two MongoDB collections of `popLatestMongoCommit`: `fresh-commits`,
    the pending commits, and `used-commits`, the archive keyed by `sha`.
    One claim removes a pending commit of maximal date and upserts it into
    the archive. */
module CommitStore {
  import opened Wrappers
  import opened Types

  /** `c` has a date no earlier than any commit of `pending`. */
  predicate IsLatest(c: Commit, pending: multiset<Commit>)
  {
    forall d :: d in pending ==> d.date <= c.date
  }

  /** Every non-empty pending collection has a latest commit. */
  lemma {:induction false} LatestExists(pending: multiset<Commit>)
    requires pending != multiset{}
    ensures exists c :: c in pending && IsLatest(c, pending)
    decreases |pending|
  {
    var x :| x in pending;
    var rest := pending - multiset{x};
    assert pending == rest + multiset{x};
    if rest == multiset{} {
      assert IsLatest(x, pending);
    } else {
      LatestExists(rest);
      var m :| m in rest && IsLatest(m, rest);
      if m.date <= x.date {
        assert IsLatest(x, pending);
      } else {
        assert IsLatest(m, pending);
      }
    }
  }

  /** The archive write `updateOne({sha}, {$set: c}, {upsert: true})`,
      taken to succeed: the entry under `c.sha` becomes `c` and no other
      entry changes. When `c.sha` is not archived yet this is an insert. */
  function Upsert(archive: map<string, Commit>, c: Commit): (r: map<string, Commit>)
    ensures r.Keys == archive.Keys + {c.sha}
    ensures r[c.sha] == c
    ensures forall k :: k in archive && k != c.sha ==> r[k] == archive[k]
  {
    archive[c.sha := c]
  }

  /** Upserting the same commit twice leaves one entry for its `sha`, as
      one upsert does. */
  lemma UpsertIdempotent(archive: map<string, Commit>, c: Commit)
    ensures Upsert(Upsert(archive, c), c) == Upsert(archive, c)
  {
  }

  /** The claim `findOneAndDelete({}, {sort: {date: 'desc'}})` on the
      pending collection alone: nothing on an empty collection, otherwise
      one occurrence of a latest commit is removed. */
  predicate ClaimStep(pending: multiset<Commit>, r: Option<Commit>, pending': multiset<Commit>)
  {
    if pending == multiset{} then r == None && pending' == pending
    else r.Some? && r.value in pending && IsLatest(r.value, pending) &&
         pending' == pending - multiset{r.value}
  }

  /** One whole `popLatestMongoCommit`: the claim, then the archive write
      when a commit was claimed. */
  predicate PopStep(pending: multiset<Commit>, archive: map<string, Commit>, r: Option<Commit>,
                    pending': multiset<Commit>, archive': map<string, Commit>)
  {
    ClaimStep(pending, r, pending') &&
    archive' == if r.Some? then Upsert(archive, r.value) else archive
  }

  /** The commits a sequence of claims returned, with multiplicity. */
  function Claimed(rs: seq<Option<Commit>>): (m: multiset<Commit>)
    ensures |m| <= |rs|
    ensures forall c :: c in m ==> Some(c) in rs
  {
    if rs == [] then multiset{}
    else (if rs[0].Some? then multiset{rs[0].value} else multiset{}) + Claimed(rs[1..])
  }

  /** `ps[i + 1]` is what claim `i` left of `ps[i]`, having returned `rs[i]`. */
  predicate IsClaimRun(ps: seq<multiset<Commit>>, rs: seq<Option<Commit>>)
  {
    |ps| == |rs| + 1 &&
    forall i :: 0 <= i < |rs| ==> ClaimStep(ps[i], rs[i], ps[i + 1])
  }

  /** Claim exclusivity over successive claims: the commits returned and
      the commits left pending make up exactly the initial pending
      collection, so no occurrence is returned twice, and `k` claims on
      `N` pending commits return `min(k, N)` commits. */
  lemma {:induction false} ClaimRunExclusive(ps: seq<multiset<Commit>>, rs: seq<Option<Commit>>)
    requires IsClaimRun(ps, rs)
    ensures Claimed(rs) + ps[|rs|] == ps[0]
    ensures |Claimed(rs)| == if |rs| <= |ps[0]| then |rs| else |ps[0]|
  {
    if rs != [] {
      ClaimRunTail(ps, rs);
      ClaimRunExclusive(ps[1..], rs[1..]);
      assert ps[1..][|rs[1..]|] == ps[|rs|];
      var first := rs[0];
      assert ClaimStep(ps[0], first, ps[1]);
      if ps[0] == multiset{} {
        assert Claimed(rs) == Claimed(rs[1..]);
      } else {
        var c := first.value;
        assert Claimed(rs) == multiset{c} + Claimed(rs[1..]);
        assert ps[0] == multiset{c} + ps[1];
        assert |ps[0]| == |ps[1]| + 1;
      }
    }
  }

  /** The claims after the first one form a run of their own. */
  lemma ClaimRunTail(ps: seq<multiset<Commit>>, rs: seq<Option<Commit>>)
    requires IsClaimRun(ps, rs) && rs != []
    ensures IsClaimRun(ps[1..], rs[1..])
  {
    forall i | 0 <= i < |rs| - 1
      ensures ClaimStep(ps[1..][i], rs[1..][i], ps[1..][i + 1])
    {
      assert ClaimStep(ps[i + 1], rs[i + 1], ps[i + 2]);
    }
  }

  /** Pending commits have distinct `sha`s, occur once each, and none of
      them is archived yet. The source does not check this; a claim keeps
      it when it holds. */
  predicate ShasUnique(pending: multiset<Commit>, archive: map<string, Commit>)
  {
    (forall c :: c in pending ==> pending[c] == 1 && c.sha !in archive) &&
    (forall c, d :: c in pending && d in pending && c.sha == d.sha ==> c == d)
  }

  lemma ClaimKeepsShasUnique(pending: multiset<Commit>, archive: map<string, Commit>, c: Commit)
    requires ShasUnique(pending, archive)
    requires c in pending
    ensures ShasUnique(pending - multiset{c}, Upsert(archive, c))
  {
    var p' := pending - multiset{c};
    forall d | d in p'
      ensures p'[d] == 1 && d.sha !in Upsert(archive, c)
    {
      assert d != c by {
        assert pending[c] == 1;
      }
    }
  }

  /** The store. */
  class Store {
    /** The `fresh-commits` collection. */
    var pending: multiset<Commit>
    /** The `used-commits` collection, keyed by `sha`. */
    var archive: map<string, Commit>

    /** Every archived commit sits under its own `sha`. */
    predicate Valid()
      reads this
    {
      forall k :: k in archive ==> archive[k].sha == k
    }

    constructor (pending: multiset<Commit>)
      ensures Valid()
      ensures this.pending == pending && archive == map[]
    {
      this.pending := pending;
      archive := map[];
    }

    /** `popLatestMongoCommit`. */
    method PopLatest() returns (r: Option<Commit>)
      requires Valid()
      modifies this
      ensures Valid()
      ensures PopStep(old(pending), old(archive), r, pending, archive)
      ensures old(pending) == multiset{} ==>
        r == None && pending == old(pending) && archive == old(archive)
      ensures old(pending) != multiset{} ==>
        r.Some? && r.value in old(pending) &&
        (forall d :: d in pending ==> d.date <= r.value.date) &&
        pending == old(pending) - multiset{r.value} &&
        archive == old(archive)[r.value.sha := r.value]
      ensures old(ShasUnique(pending, archive)) ==> ShasUnique(pending, archive)
      ensures old(ShasUnique(pending, archive)) && r.Some? ==> r.value.sha !in old(archive)
    {
      if pending == multiset{} {
        return None;
      }
      LatestExists(pending);
      var c :| c in pending && IsLatest(c, pending);
      ghost var unique := ShasUnique(pending, archive);
      if unique {
        ClaimKeepsShasUnique(pending, archive, c);
      }
      pending := pending - multiset{c};
      archive := Upsert(archive, c);
      r := Some(c);
    }
  }
}
