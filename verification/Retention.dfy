/** What one retention pass over a scope is meant to leave behind, stated on values: the one-line
    specification that the collector's three deletion phases are proved against. */
module Retention {
  import opened Common

  /** The pod and container a checkpoint was taken from, as recorded inside the archive. */
  datatype Details = Details(ns: string, pod: string, container: string)

  /** A file of the checkpoint directory; identity is None when its metadata cannot be read. */
  datatype Archive = Archive(size: nat, mtime: int, identity: Option<Details>)

  type Files = map<string, Archive>

  datatype Policy = Policy(retainOrphan: bool, maxCheckpoints: int, maxCheckpointSize: int, maxTotalSize: int)

  // ---------- the archives a pass talks about ----------

  predicate Oversize(files: Files, keep: set<string>, p: Policy, n: string) {
    n in files && n !in keep && files[n].size > p.maxCheckpointSize
  }

  predicate Deletable(files: Files, keep: set<string>, p: Policy, n: string) {
    n in files && n !in keep && files[n].size <= p.maxCheckpointSize
  }

  function OversizeIn(files: Files, keep: set<string>, p: Policy, listing: seq<string>): set<string> {
    set n | n in listing && Oversize(files, keep, p, n)
  }

  /** The listed archives that the per-file limit does not remove. A listed archive that has
      vanished is still counted. */
  function Retained(files: Files, keep: set<string>, p: Policy, listing: seq<string>): seq<string> {
    if listing == [] then []
    else
      var init, last := listing[..|listing| - 1], listing[|listing| - 1];
      Retained(files, keep, p, init) + (if Oversize(files, keep, p, last) then [] else [last])
  }

  function Candidates(files: Files, keep: set<string>, p: Policy, listing: seq<string>): seq<string> {
    if listing == [] then []
    else
      var init, last := listing[..|listing| - 1], listing[|listing| - 1];
      Candidates(files, keep, p, init) + (if Deletable(files, keep, p, last) then [last] else [])
  }

  function SizeOf(files: Files, n: string): nat {
    if n in files then files[n].size else 0
  }

  function TotalSize(files: Files, names: seq<string>): nat {
    if names == [] then 0
    else TotalSize(files, names[..|names| - 1]) + SizeOf(files, names[|names| - 1])
  }

  // ---------- the specification ----------

  predicate OldestFirst(files: Files, order: seq<string>) {
    forall i, j :: 0 <= i < j < |order| && order[i] in files && order[j] in files ==>
      files[order[i]].mtime <= files[order[j]].mtime
  }

  /** order lists exactly the deletable archives of the listing, each once, oldest first. */
  predicate DeletionOrder(files: Files, keep: set<string>, p: Policy, listing: seq<string>, order: seq<string>) {
    multiset(order) == multiset(Candidates(files, keep, p, listing)) && OldestFirst(files, order)
  }

  /** Both limits hold once the k oldest deletable archives are gone. */
  predicate WithinLimits(files: Files, keep: set<string>, p: Policy, listing: seq<string>, order: seq<string>, k: nat)
    requires k <= |order|
  {
    var kept := Retained(files, keep, p, listing);
    |kept| - k <= p.maxCheckpoints && TotalSize(files, kept) - TotalSize(files, order[..k]) <= p.maxTotalSize
  }

  /** The shortest prefix that meets both limits, or everything deletable. */
  predicate IsCut(files: Files, keep: set<string>, p: Policy, listing: seq<string>, order: seq<string>, k: nat) {
    && k <= |order|
    && (k == |order| || WithinLimits(files, keep, p, listing, order, k))
    && forall j :: 0 <= j < k ==> !WithinLimits(files, keep, p, listing, order, j)
  }

  function Survivors(files: Files, keep: set<string>, p: Policy, listing: seq<string>, order: seq<string>, k: nat): Files
    requires k <= |order|
  {
    files - OversizeIn(files, keep, p, listing) - Elements(order[..k])
  }

  /** after is what the specification leaves of before, for some order of equally old archives. */
  ghost predicate PassOutcome(files: Files, keep: set<string>, p: Policy, listing: seq<string>, after: Files) {
    exists order, k ::
      && DeletionOrder(files, keep, p, listing, order)
      && IsCut(files, keep, p, listing, order, k)
      && after == Survivors(files, keep, p, listing, order, k)
  }

  // ---------- sorting ----------

  /** The comparator of the collector's sorts: false as soon as one of the files cannot be read. */
  predicate Older(files: Files, a: string, b: string) {
    a in files && b in files && files[a].mtime < files[b].mtime
  }

  predicate Inverted(files: Files, s: seq<string>, i: nat, j: nat)
    requires i < |s| && j < |s|
  {
    Older(files, s[j], s[i])
  }

  predicate NoInversion(files: Files, s: seq<string>) {
    forall i, j :: 0 <= i < j < |s| ==> !Inverted(files, s, i, j)
  }

  /** What the collector may rely on about an in-place sort with that comparator: a permutation,
      sorted if every element can be compared, and the identity if nothing is out of order. */
  predicate SortOutcome(files: Files, s: seq<string>, t: seq<string>) {
    && multiset(s) == multiset(t)
    && ((forall x :: x in s ==> x in files) ==> NoInversion(files, t))
    && (NoInversion(files, s) ==> t == s)
  }

  function Insert(files: Files, s: seq<string>, x: string): seq<string> {
    if s == [] then [x]
    else
      var init, last := s[..|s| - 1], s[|s| - 1];
      if Older(files, x, last) then Insert(files, init, x) + [last] else s + [x]
  }

  function InsertionSort(files: Files, s: seq<string>): seq<string> {
    if s == [] then [] else Insert(files, InsertionSort(files, s[..|s| - 1]), s[|s| - 1])
  }

  lemma {:induction false} InsertIsPermutation(files: Files, s: seq<string>, x: string)
    ensures multiset(Insert(files, s, x)) == multiset(s) + multiset{x}
  {
    if s != [] {
      var init, last := s[..|s| - 1], s[|s| - 1];
      assert s == init + [last];
      if Older(files, x, last) { InsertIsPermutation(files, init, x); }
    }
  }

  lemma AppendKeepsOrder(files: Files, s: seq<string>, x: string)
    requires NoInversion(files, s) && forall y :: y in s ==> !Older(files, x, y)
    ensures NoInversion(files, s + [x])
  {
    var t := s + [x];
    forall i, j | 0 <= i < j < |t| ensures !Inverted(files, t, i, j) {
      if j < |s| { assert !Inverted(files, s, i, j); } else { assert s[i] in s; }
    }
  }

  lemma InitOfOrdered(files: Files, init: seq<string>, last: string)
    requires NoInversion(files, init + [last])
    ensures NoInversion(files, init) && forall y :: y in init ==> !Older(files, last, y)
  {
    var s := init + [last];
    forall i, j | 0 <= i < j < |init| ensures !Inverted(files, init, i, j) { assert !Inverted(files, s, i, j); }
    forall y | y in init ensures !Older(files, last, y) {
      var m :| 0 <= m < |init| && init[m] == y;
      assert !Inverted(files, s, m, |init|);
    }
  }

  lemma {:induction false} InsertKeepsOrder(files: Files, s: seq<string>, x: string)
    requires x in files && (forall y :: y in s ==> y in files) && NoInversion(files, s)
    ensures NoInversion(files, Insert(files, s, x))
    ensures forall y :: y in Insert(files, s, x) ==> y == x || y in s
  {
    if s != [] {
      var init, last := s[..|s| - 1], s[|s| - 1];
      assert s == init + [last];
      InitOfOrdered(files, init, last);
      if Older(files, x, last) {
        InsertKeepsOrder(files, init, x);
        AppendKeepsOrder(files, Insert(files, init, x), last);
      } else {
        AppendKeepsOrder(files, s, x);
      }
    }
  }

  /** The contract of the sort can be met. */
  lemma {:induction false} InsertionSortMeetsContract(files: Files, s: seq<string>)
    ensures SortOutcome(files, s, InsertionSort(files, s))
  {
    if s != [] {
      var init, x := s[..|s| - 1], s[|s| - 1];
      var t := InsertionSort(files, init);
      assert s == init + [x];
      InsertionSortMeetsContract(files, init);
      InsertIsPermutation(files, t, x);
      if forall y :: y in s ==> y in files {
        assert x in s;
        forall y | y in t ensures y in files { assert y in multiset(t); assert y in init; }
        InsertKeepsOrder(files, t, x);
      }
      if NoInversion(files, s) {
        forall i, j | 0 <= i < j < |init| ensures !Inverted(files, init, i, j) { assert !Inverted(files, s, i, j); }
        if t != [] { assert !Inverted(files, s, |s| - 2, |s| - 1); }
      }
    }
  }

  /** A sort that runs after a prefix of a sorted list was deleted changes nothing. */
  lemma DeletedPrefixKeepsOrder(files: Files, order: seq<string>, gone: set<string>)
    requires NoInversion(files, order)
    ensures NoInversion(files - gone, order)
  {
    forall i, j | 0 <= i < j < |order| ensures !Inverted(files - gone, order, i, j) {
      assert !Inverted(files, order, i, j);
    }
  }

  // ---------- prefixes ----------

  lemma {:induction false} PrefixTotalMonotone(files: Files, s: seq<string>, i: nat, j: nat)
    requires i <= j <= |s|
    ensures TotalSize(files, s[..i]) <= TotalSize(files, s[..j])
    decreases j
  {
    if i < j {
      assert s[..j][..j - 1] == s[..j - 1];
      PrefixTotalMonotone(files, s, i, j - 1);
    }
  }

  lemma TotalStep(files: Files, s: seq<string>, i: nat)
    requires i < |s|
    ensures TotalSize(files, s[..i + 1]) == TotalSize(files, s[..i]) + SizeOf(files, s[i])
  {
    assert s[..i + 1][..i] == s[..i];
  }

  /** Length of the prefix the count phase removes. */
  function CountCut(kept: nat, limit: int, n: nat): nat {
    if kept <= limit then 0 else if kept - limit <= n then kept - limit else n
  }

  /** k is the length of the prefix the size phase asks for, on the total before any deletion. */
  predicate IsSizeCut(files: Files, order: seq<string>, total: int, limit: int, k: nat) {
    && k <= |order|
    && (k == |order| || total - TotalSize(files, order[..k]) <= limit)
    && forall j :: 0 <= j < k ==> total - TotalSize(files, order[..j]) > limit
  }

  /** Both phases delete prefixes of one list, so the stale total and the stale candidate list of
      the size phase do no harm: together they delete the shortest sufficient prefix. */
  lemma PhasesMakeTheCut(files: Files, keep: set<string>, p: Policy, listing: seq<string>,
                         order: seq<string>, k1: nat, k2: nat)
    requires var kept := Retained(files, keep, p, listing);
             && k1 == CountCut(|kept|, p.maxCheckpoints, |order|)
             && IsSizeCut(files, order, TotalSize(files, kept), p.maxTotalSize, k2)
    ensures IsCut(files, keep, p, listing, order, if k1 <= k2 then k2 else k1)
  {
    var k := if k1 <= k2 then k2 else k1;
    if k < |order| { AtTheCut(files, keep, p, listing, order, k1, k2); }
    forall j: nat | j < k ensures !WithinLimits(files, keep, p, listing, order, j) {
      BeforeTheCut(files, keep, p, listing, order, k1, k2, j);
    }
  }

  lemma AtTheCut(files: Files, keep: set<string>, p: Policy, listing: seq<string>,
                 order: seq<string>, k1: nat, k2: nat)
    requires var kept := Retained(files, keep, p, listing);
             && k1 == CountCut(|kept|, p.maxCheckpoints, |order|)
             && IsSizeCut(files, order, TotalSize(files, kept), p.maxTotalSize, k2)
    requires k1 < |order| && k2 < |order|
    ensures WithinLimits(files, keep, p, listing, order, if k1 <= k2 then k2 else k1)
  {
    if k2 < k1 { PrefixTotalMonotone(files, order, k2, k1); }
  }

  lemma BeforeTheCut(files: Files, keep: set<string>, p: Policy, listing: seq<string>,
                     order: seq<string>, k1: nat, k2: nat, j: nat)
    requires var kept := Retained(files, keep, p, listing);
             && k1 == CountCut(|kept|, p.maxCheckpoints, |order|)
             && IsSizeCut(files, order, TotalSize(files, kept), p.maxTotalSize, k2)
    requires j < k1 || j < k2
    ensures !WithinLimits(files, keep, p, listing, order, j)
  {
  }

  // ---------- consequences of the specification ----------

  lemma {:induction false} CandidatesExact(files: Files, keep: set<string>, p: Policy, listing: seq<string>)
    ensures forall n :: n in Candidates(files, keep, p, listing) <==> n in listing && Deletable(files, keep, p, n)
    ensures NoDuplicates(listing) ==> NoDuplicates(Candidates(files, keep, p, listing))
  {
    if listing != [] {
      var init, last := listing[..|listing| - 1], listing[|listing| - 1];
      assert listing == init + [last];
      CandidatesExact(files, keep, p, init);
      if NoDuplicates(listing) {
        forall i | 0 <= i < |init| ensures init[i] != last { assert listing[i] != listing[|listing| - 1]; }
        assert forall i, j :: 0 <= i < j < |init| ==> init[i] == listing[i] && init[j] == listing[j];
        assert NoDuplicates(init);
        assert last !in init;
      }
    }
  }

  lemma {:induction false} RetainedExact(files: Files, keep: set<string>, p: Policy, listing: seq<string>)
    ensures forall n :: n in Retained(files, keep, p, listing) <==> n in listing && !Oversize(files, keep, p, n)
  {
    if listing != [] {
      var init, last := listing[..|listing| - 1], listing[|listing| - 1];
      assert listing == init + [last];
      RetainedExact(files, keep, p, init);
    }
  }

  lemma OrderMembers(files: Files, keep: set<string>, p: Policy, listing: seq<string>, order: seq<string>)
    requires DeletionOrder(files, keep, p, listing, order)
    ensures forall n :: n in order <==> n in listing && Deletable(files, keep, p, n)
  {
    CandidatesExact(files, keep, p, listing);
    forall n ensures n in order <==> n in listing && Deletable(files, keep, p, n) {
      assert n in order <==> n in multiset(order);
      assert n in Candidates(files, keep, p, listing) <==> n in multiset(Candidates(files, keep, p, listing));
    }
  }

  /** Safety of one pass: nothing pinned, nothing outside the scope and nothing changed. */
  lemma PassSafety(files: Files, keep: set<string>, p: Policy, listing: seq<string>, after: Files)
    requires PassOutcome(files, keep, p, listing, after)
    ensures after.Keys <= files.Keys && forall n :: n in after ==> after[n] == files[n]
    ensures forall n :: n in files && n !in after ==> n in listing && n !in keep
    ensures forall n :: n in listing && Oversize(files, keep, p, n) ==> n !in after
  {
    var order, k :| DeletionOrder(files, keep, p, listing, order) && IsCut(files, keep, p, listing, order, k) &&
                    after == Survivors(files, keep, p, listing, order, k);
    OrderMembers(files, keep, p, listing, order);
    forall n | n in files && n !in after ensures n in listing && n !in keep {
      if n !in OversizeIn(files, keep, p, listing) { assert n in order[..k]; assert n in order; }
    }
  }

  /** Oldest first: an archive that fell to a limit is at most as young as any deletable one that
      survived. */
  lemma PassDeletesOldest(files: Files, keep: set<string>, p: Policy, listing: seq<string>, after: Files,
                          gone: string, kept: string)
    requires PassOutcome(files, keep, p, listing, after)
    requires gone in files && gone !in after && Deletable(files, keep, p, gone)
    requires kept in after && kept in listing && Deletable(files, keep, p, kept)
    ensures files[gone].mtime <= files[kept].mtime
  {
    var order, k :| DeletionOrder(files, keep, p, listing, order) && IsCut(files, keep, p, listing, order, k) &&
                    after == Survivors(files, keep, p, listing, order, k);
    OrderMembers(files, keep, p, listing, order);
    assert gone in order[..k];
    var i :| 0 <= i < k && order[..k][i] == gone;
    var j :| 0 <= j < |order| && order[j] == kept;
    assert kept !in Elements(order[..k]);
    assert forall m :: 0 <= m < k ==> order[m] == order[..k][m] && order[m] in order[..k];
    assert j >= k;
  }

  lemma {:induction false} MultisetCount(s: seq<string>, x: string)
    requires NoDuplicates(s)
    ensures multiset(s)[x] <= 1
  {
    if s != [] {
      var init, last := s[..|s| - 1], s[|s| - 1];
      assert s == init + [last];
      assert forall i, j :: 0 <= i < j < |init| ==> init[i] == s[i] && init[j] == s[j];
      MultisetCount(init, x);
      if x == last {
        forall i | 0 <= i < |init| ensures init[i] != x { assert s[i] != s[|s| - 1]; }
        assert x !in init;
      }
    }
  }

  lemma CountTwice(s: seq<string>, i: nat, j: nat)
    requires i < j < |s| && s[i] == s[j]
    ensures multiset(s)[s[i]] >= 2
  {
    assert s == s[..i] + [s[i]] + s[i + 1..j] + [s[i]] + s[j + 1..];
  }

  lemma OrderHasNoDuplicates(files: Files, keep: set<string>, p: Policy, listing: seq<string>, order: seq<string>)
    requires NoDuplicates(listing) && DeletionOrder(files, keep, p, listing, order)
    ensures NoDuplicates(order)
  {
    CandidatesExact(files, keep, p, listing);
    forall i, j | 0 <= i < j < |order| ensures order[i] != order[j] {
      if order[i] == order[j] {
        var x := order[i];
        CountTwice(order, i, j);
        MultisetCount(Candidates(files, keep, p, listing), x);
        assert false;
      }
    }
  }

  predicate StrictlyOldestFirst(files: Files, s: seq<string>) {
    (forall x :: x in s ==> x in files) &&
    forall i, j :: 0 <= i < j < |s| ==> files[s[i]].mtime < files[s[j]].mtime
  }

  lemma LastAgrees(files: Files, s: seq<string>, t: seq<string>)
    requires s != [] && t != [] && multiset(s) == multiset(t)
    requires StrictlyOldestFirst(files, s) && OldestFirst(files, t)
    ensures s[|s| - 1] == t[|t| - 1]
  {
    var x, y := s[|s| - 1], t[|t| - 1];
    assert x in multiset(t) && y in multiset(s);
    assert x in t && y in s;
    var i :| 0 <= i < |s| && s[i] == y;
    var j :| 0 <= j < |t| && t[j] == x;
    if i < |s| - 1 { assert files[y].mtime < files[x].mtime; }
  }

  lemma InitOfAged(files: Files, s: seq<string>, t: seq<string>, x: string)
    requires StrictlyOldestFirst(files, s + [x]) && OldestFirst(files, t + [x])
    ensures StrictlyOldestFirst(files, s) && OldestFirst(files, t)
  {
    var s', t' := s + [x], t + [x];
    forall y | y in s ensures y in files { assert y in s'; }
    forall i, j | 0 <= i < j < |s| ensures files[s[i]].mtime < files[s[j]].mtime {
      assert s'[i] == s[i] && s'[j] == s[j];
    }
    forall i, j | 0 <= i < j < |t| && t[i] in files && t[j] in files
      ensures files[t[i]].mtime <= files[t[j]].mtime
    {
      assert t'[i] == t[i] && t'[j] == t[j];
    }
  }

  lemma SameLength(s: seq<string>, t: seq<string>)
    requires multiset(s) == multiset(t)
    ensures |s| == |t|
  {
    assert |multiset(s)| == |s| && |multiset(t)| == |t|;
  }

  lemma DropLast(s: seq<string>, t: seq<string>, x: string)
    requires multiset(s + [x]) == multiset(t + [x])
    ensures multiset(s) == multiset(t)
  {
    assert multiset(s) == multiset(s + [x]) - multiset{x};
    assert multiset(t) == multiset(t + [x]) - multiset{x};
  }

  /** Two lists with the same contents, one of strictly increasing age, are the same list. */
  lemma {:induction false} StrictOrderUnique(files: Files, s: seq<string>, t: seq<string>)
    requires multiset(s) == multiset(t)
    requires StrictlyOldestFirst(files, s) && OldestFirst(files, t)
    ensures s == t
    decreases |s|
  {
    SameLength(s, t);
    if s != [] {
      LastAgrees(files, s, t);
      var s', t', x := s[..|s| - 1], t[..|t| - 1], s[|s| - 1];
      assert s == s' + [x] && t == t' + [x];
      DropLast(s', t', x);
      InitOfAged(files, s', t', x);
      StrictOrderUnique(files, s', t');
    }
  }

  lemma CutUnique(files: Files, keep: set<string>, p: Policy, listing: seq<string>, order: seq<string>, k: nat, m: nat)
    requires IsCut(files, keep, p, listing, order, k) && IsCut(files, keep, p, listing, order, m)
    ensures k == m
  {}

  /** With pairwise different modification times the outcome of a pass is a function of its input. */
  lemma OutcomeUnique(files: Files, keep: set<string>, p: Policy, listing: seq<string>, a: Files, b: Files)
    requires NoDuplicates(listing)
    requires forall x, y :: x in files && y in files && x != y ==> files[x].mtime != files[y].mtime
    requires PassOutcome(files, keep, p, listing, a) && PassOutcome(files, keep, p, listing, b)
    ensures a == b
  {
    var s, k :| DeletionOrder(files, keep, p, listing, s) && IsCut(files, keep, p, listing, s, k) &&
                a == Survivors(files, keep, p, listing, s, k);
    var t, m :| DeletionOrder(files, keep, p, listing, t) && IsCut(files, keep, p, listing, t, m) &&
                b == Survivors(files, keep, p, listing, t, m);
    OrderMembers(files, keep, p, listing, s);
    OrderMembers(files, keep, p, listing, t);
    OrderHasNoDuplicates(files, keep, p, listing, s);
    forall x | x in s ensures x in files { assert Deletable(files, keep, p, x); }
    assert forall i :: 0 <= i < |s| ==> s[i] in s;
    forall i, j | 0 <= i < j < |s| ensures files[s[i]].mtime < files[s[j]].mtime {
      assert s[i] != s[j];
    }
    StrictOrderUnique(files, s, t);
    CutUnique(files, keep, p, listing, s, k, m);
  }

  // ---------- a pass brings the scope within its limits ----------

  /** The next listing of the same scope. */
  function Relist(after: Files, listing: seq<string>): seq<string> {
    if listing == [] then []
    else
      var init, last := listing[..|listing| - 1], listing[|listing| - 1];
      Relist(after, init) + (if last in after then [last] else [])
  }

  lemma {:induction false} RelistExact(after: Files, listing: seq<string>)
    ensures forall n :: n in Relist(after, listing) <==> n in listing && n in after
    ensures NoDuplicates(listing) ==> NoDuplicates(Relist(after, listing))
  {
    if listing != [] {
      var init, last := listing[..|listing| - 1], listing[|listing| - 1];
      assert listing == init + [last];
      RelistExact(after, init);
      if NoDuplicates(listing) { InitNoDuplicates(init, last); }
    }
  }

  lemma InitNoDuplicates(init: seq<string>, last: string)
    requires NoDuplicates(init + [last])
    ensures NoDuplicates(init) && last !in init
  {
    var s := init + [last];
    forall i, j | 0 <= i < j < |init| ensures init[i] != init[j] { assert s[i] != s[j]; }
    forall i | 0 <= i < |init| ensures init[i] != last { assert s[i] != s[|init|]; }
  }

  lemma {:induction false} RetainedNoDuplicates(files: Files, keep: set<string>, p: Policy, listing: seq<string>)
    requires NoDuplicates(listing)
    ensures NoDuplicates(Retained(files, keep, p, listing))
  {
    if listing != [] {
      var init, last := listing[..|listing| - 1], listing[|listing| - 1];
      assert listing == init + [last];
      InitNoDuplicates(init, last);
      RetainedNoDuplicates(files, keep, p, init);
      RetainedExact(files, keep, p, init);
    }
  }

  lemma {:induction false} TotalOfConcat(files: Files, s: seq<string>, t: seq<string>)
    ensures TotalSize(files, s + t) == TotalSize(files, s) + TotalSize(files, t)
    decreases |t|
  {
    if t == [] {
      assert s + t == s;
    } else {
      assert (s + t)[..|s + t| - 1] == s + t[..|t| - 1];
      TotalOfConcat(files, s, t[..|t| - 1]);
    }
  }

  /** A sum of sizes does not depend on the order, nor on names that are no files. */
  lemma {:induction false} TotalOfSubset(files: Files, s: seq<string>, t: seq<string>)
    requires NoDuplicates(s) && NoDuplicates(t)
    requires forall n :: n in s ==> n in t
    ensures |s| <= |t| && TotalSize(files, s) <= TotalSize(files, t)
    decreases |s|
  {
    if s != [] {
      var init, x := s[..|s| - 1], s[|s| - 1];
      assert s == init + [x];
      InitNoDuplicates(init, x);
      assert x in s;
      var i :| 0 <= i < |t| && t[i] == x;
      var a, b := t[..i], t[i + 1..];
      assert t == a + [x] + b;
      RemoveOne(a, x, b);
      forall n | n in init ensures n in a + b { assert n in s; assert n in t && n != x; }
      TotalOfSubset(files, init, a + b);
      TotalOfConcat(files, a, b);
      TotalOfConcat(files, a + [x], b);
      TotalOfConcat(files, a, [x]);
    }
  }

  lemma RemoveOne(a: seq<string>, x: string, b: seq<string>)
    requires NoDuplicates(a + [x] + b)
    ensures NoDuplicates(a + b) && x !in a + b
    ensures forall n :: n in a + [x] + b && n != x ==> n in a + b
  {
    var t, u := a + [x] + b, a + b;
    assert forall i :: 0 <= i < |u| ==> u[i] == (if i < |a| then t[i] else t[i + 1]);
    assert t[|a|] == x;
    forall i, j | 0 <= i < j < |u| ensures u[i] != u[j] {
      var i', j' := if i < |a| then i else i + 1, if j < |a| then j else j + 1;
      assert t[i'] != t[j'];
    }
    forall i | 0 <= i < |u| ensures u[i] != x {
      if i < |a| { assert t[i] != t[|a|]; } else { assert t[|a|] != t[i + 1]; }
    }
  }

  /** After a pass both limits hold for what is left, or nothing unpinned is left. */
  lemma PassReachesLimits(files: Files, keep: set<string>, p: Policy, listing: seq<string>, after: Files)
    requires NoDuplicates(listing) && PassOutcome(files, keep, p, listing, after)
    ensures var next := Relist(after, listing);
            || (|next| <= p.maxCheckpoints && TotalSize(after, next) <= p.maxTotalSize)
            || forall n :: n in next ==> n in keep
  {
    var order, k :| DeletionOrder(files, keep, p, listing, order) && IsCut(files, keep, p, listing, order, k) &&
                    after == Survivors(files, keep, p, listing, order, k);
    var next := Relist(after, listing);
    RelistExact(after, listing);
    OrderMembers(files, keep, p, listing, order);
    if k == |order| {
      assert order[..k] == order;
      forall n | n in next ensures n in keep {
        assert n in keep || Oversize(files, keep, p, n) || Deletable(files, keep, p, n);
      }
    } else {
      KeptPlusCut(files, keep, p, listing, order, k, after);
    }
  }

  lemma KeptPlusCut(files: Files, keep: set<string>, p: Policy, listing: seq<string>, order: seq<string>, k: nat,
                    after: Files)
    requires NoDuplicates(listing) && DeletionOrder(files, keep, p, listing, order) && k <= |order|
    requires after == Survivors(files, keep, p, listing, order, k)
    ensures var next, kept := Relist(after, listing), Retained(files, keep, p, listing);
            && |next| + k <= |kept|
            && TotalSize(after, next) + TotalSize(files, order[..k]) <= TotalSize(files, kept)
  {
    var next, kept, cut := Relist(after, listing), Retained(files, keep, p, listing), order[..k];
    RelistExact(after, listing);
    RetainedExact(files, keep, p, listing);
    RetainedNoDuplicates(files, keep, p, listing);
    OrderMembers(files, keep, p, listing, order);
    OrderHasNoDuplicates(files, keep, p, listing, order);
    assert NoDuplicates(cut);
    assert forall n :: n in cut ==> n in order;
    var both := next + cut;
    forall n | n in both ensures n in kept {}
    forall i, j | 0 <= i < j < |both| ensures both[i] != both[j] {
      if i < |next| && j >= |next| {
        assert both[i] in next && both[j] == cut[j - |next|];
        assert both[j] in cut;
      }
    }
    TotalOfSubset(files, both, kept);
    TotalOfConcat(files, next, cut);
    SameSizes(files, after, next);
  }

  lemma {:induction false} SameSizes(files: Files, after: Files, s: seq<string>)
    requires forall n :: n in s ==> n in after && n in files && after[n] == files[n]
    ensures TotalSize(after, s) == TotalSize(files, s)
  {
    if s != [] { SameSizes(files, after, s[..|s| - 1]); }
  }

  lemma {:induction false} NothingOversize(files: Files, keep: set<string>, p: Policy, listing: seq<string>)
    requires forall n :: n in listing ==> !Oversize(files, keep, p, n)
    ensures Retained(files, keep, p, listing) == listing
  {
    if listing != [] {
      var init, last := listing[..|listing| - 1], listing[|listing| - 1];
      assert listing == init + [last] && last in listing;
      NothingOversize(files, keep, p, init);
    }
  }

  lemma HasMember(s: seq<string>)
    requires s != []
    ensures exists n :: n in s
  {
    assert s[0] in s;
  }

  lemma NothingToCut(files: Files, keep: set<string>, p: Policy, listing: seq<string>, order: seq<string>, k: nat)
    requires forall n :: n in listing ==> !Oversize(files, keep, p, n)
    requires || (|listing| <= p.maxCheckpoints && TotalSize(files, listing) <= p.maxTotalSize)
             || forall n :: n in listing ==> n in keep
    requires DeletionOrder(files, keep, p, listing, order) && IsCut(files, keep, p, listing, order, k)
    ensures k == 0
  {
    NothingOversize(files, keep, p, listing);
    OrderMembers(files, keep, p, listing, order);
    if forall n :: n in listing ==> n in keep {
      if order != [] { HasMember(order); assert false; }
    } else {
      assert order[..0] == [];
      assert WithinLimits(files, keep, p, listing, order, 0);
    }
  }

  /** Retention is idempotent: a second pass over the same scope deletes nothing. */
  lemma SecondPassIdle(files: Files, keep: set<string>, p: Policy, listing: seq<string>, after: Files, again: Files)
    requires NoDuplicates(listing) && PassOutcome(files, keep, p, listing, after)
    requires PassOutcome(after, keep, p, Relist(after, listing), again)
    ensures again == after
  {
    var next := Relist(after, listing);
    PassReachesLimits(files, keep, p, listing, after);
    NextNotOversize(files, keep, p, listing, after);
    var order, k :| DeletionOrder(after, keep, p, next, order) && IsCut(after, keep, p, next, order, k) &&
                    again == Survivors(after, keep, p, next, order, k);
    NothingToCut(after, keep, p, next, order, k);
    assert OversizeIn(after, keep, p, next) == {};
    assert Elements(order[..k]) == {};
  }

  lemma NextNotOversize(files: Files, keep: set<string>, p: Policy, listing: seq<string>, after: Files)
    requires PassOutcome(files, keep, p, listing, after)
    ensures forall n :: n in Relist(after, listing) ==> !Oversize(after, keep, p, n)
  {
    RelistExact(after, listing);
    PassSafety(files, keep, p, listing, after);
    forall n | n in Relist(after, listing) ensures !Oversize(after, keep, p, n) {
      assert Oversize(after, keep, p, n) ==> Oversize(files, keep, p, n);
    }
  }
}
