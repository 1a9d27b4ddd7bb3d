/** The .keep markers of PodRestore: a managed marker is a reference count, kept as a sorted list of
    owners in a file that is replaced atomically; any other marker belongs to the user. */
module PinMarkers {
  import opened Common

  /** Content of a marker file as the operator reads it. Whatever does not parse as its own document
      is unmanaged. */
  datatype Marker = Managed(owners: seq<string>) | Unmanaged(content: string)

  // ---------- ordered lists of owners ----------

  predicate Before(a: string, b: string) {
    if b == [] then false
    else if a == [] then true
    else a[0] < b[0] || (a[0] == b[0] && Before(a[1..], b[1..]))
  }

  lemma {:induction false} BeforeTotal(a: string, b: string)
    ensures Before(a, b) || a == b || Before(b, a)
    ensures !(Before(a, b) && Before(b, a)) && !Before(a, a)
    decreases |a|
  {
    if a != [] {
      BeforeTotal(a[1..], a[1..]);
      if b != [] && a[0] == b[0] {
        BeforeTotal(a[1..], b[1..]);
        assert a == [a[0]] + a[1..] && b == [b[0]] + b[1..];
      }
    }
  }

  lemma {:induction false} BeforeTransitive(a: string, b: string, c: string)
    requires Before(a, b) && Before(b, c)
    ensures Before(a, c)
    decreases |a|
  {
    if a != [] && a[0] == b[0] == c[0] { BeforeTransitive(a[1..], b[1..], c[1..]); }
  }

  predicate StrictlySorted(s: seq<string>) {
    forall i, j :: 0 <= i < j < |s| ==> Before(s[i], s[j])
  }

  function InsertOwner(s: seq<string>, x: string): seq<string> {
    if s == [] then [x]
    else
      var init, last := s[..|s| - 1], s[|s| - 1];
      if Before(x, last) then InsertOwner(init, x) + [last] else s + [x]
  }

  /** sort.Strings. */
  function SortOwners(s: seq<string>): seq<string> {
    if s == [] then [] else InsertOwner(SortOwners(s[..|s| - 1]), s[|s| - 1])
  }

  lemma {:induction false} InsertMembers(s: seq<string>, x: string)
    ensures forall y :: y in InsertOwner(s, x) <==> y == x || y in s
  {
    if s != [] {
      var init, last := s[..|s| - 1], s[|s| - 1];
      assert s == init + [last];
      InsertMembers(init, x);
    }
  }

  lemma AppendSorted(s: seq<string>, x: string)
    requires StrictlySorted(s) && forall y :: y in s ==> Before(y, x)
    ensures StrictlySorted(s + [x])
  {
    var t := s + [x];
    forall i, j | 0 <= i < j < |t| ensures Before(t[i], t[j]) {
      assert t[i] == s[i] && s[i] in s;
    }
  }

  lemma InitSorted(init: seq<string>, last: string)
    requires StrictlySorted(init + [last])
    ensures StrictlySorted(init) && forall y :: y in init ==> Before(y, last)
  {
    var s := init + [last];
    forall i, j | 0 <= i < j < |init| ensures Before(init[i], init[j]) { assert s[i] == init[i] && s[j] == init[j]; }
    forall y | y in init ensures Before(y, last) {
      var m :| 0 <= m < |init| && init[m] == y;
      assert s[m] == y && s[|init|] == last;
    }
  }

  lemma {:induction false} InsertSorted(s: seq<string>, x: string)
    requires StrictlySorted(s) && x !in s
    ensures StrictlySorted(InsertOwner(s, x))
  {
    if s != [] {
      var init, last := s[..|s| - 1], s[|s| - 1];
      assert s == init + [last];
      InitSorted(init, last);
      if Before(x, last) {
        InsertSorted(init, x);
        InsertMembers(init, x);
        AppendSorted(InsertOwner(init, x), last);
      } else {
        BeforeTotal(x, last);
        forall y | y in s ensures Before(y, x) {
          if y in init { BeforeTransitive(y, last, x); }
        }
        AppendSorted(s, x);
      }
    }
  }

  lemma {:induction false} SortKeepsSorted(s: seq<string>)
    requires StrictlySorted(s)
    ensures SortOwners(s) == s
  {
    if s != [] {
      var n := |s| - 1;
      var init, last := s[..n], s[n];
      assert s == init + [last];
      assert forall i, j :: 0 <= i < j < |init| ==> init[i] == s[i] && init[j] == s[j];
      SortKeepsSorted(init);
      if n > 0 { assert Before(s[n - 1], s[n]); BeforeTotal(s[n - 1], s[n]); }
    }
  }

  function Without(s: seq<string>, x: string): seq<string> {
    if s == [] then []
    else
      var init, last := s[..|s| - 1], s[|s| - 1];
      Without(init, x) + (if last == x then [] else [last])
  }

  lemma {:induction false} WithoutMembers(s: seq<string>, x: string)
    ensures forall y :: y in Without(s, x) <==> y in s && y != x
    ensures |Without(s, x)| <= |s| && (|Without(s, x)| == |s| <==> x !in s)
    ensures x !in s ==> Without(s, x) == s
  {
    if s != [] {
      var init, last := s[..|s| - 1], s[|s| - 1];
      assert s == init + [last];
      WithoutMembers(init, x);
    }
  }

  lemma {:induction false} WithoutSorted(s: seq<string>, x: string)
    requires StrictlySorted(s)
    ensures StrictlySorted(Without(s, x))
  {
    if s != [] {
      var init, last := s[..|s| - 1], s[|s| - 1];
      assert s == init + [last];
      InitSorted(init, last);
      WithoutSorted(init, x);
      WithoutMembers(init, x);
      AppendSorted(Without(init, x), last);
    }
  }

  // ---------- one pin, one unpin ----------

  /** The marker a pin by owner leaves. */
  function PinMarker(m: Option<Marker>, owner: string): Option<Marker> {
    match m
    case None => Some(Managed([owner]))
    case Some(Unmanaged(_)) => m
    case Some(Managed(os)) => if owner in os then m else Some(Managed(SortOwners(os + [owner])))
  }

  function UnpinMarker(m: Option<Marker>, owner: string): Option<Marker> {
    match m
    case None => None
    case Some(Unmanaged(_)) => m
    case Some(Managed(os)) =>
      var rest := Without(os, owner);
      if |rest| == |os| then m else if rest == [] then None else Some(Managed(rest))
  }

  // ---------- markers refine sets of owners ----------

  /** The marker is the file form of this set of owners. */
  predicate Represents(m: Option<Marker>, owners: set<string>) {
    match m
    case None => owners == {}
    case Some(Unmanaged(_)) => false
    case Some(Managed(os)) => os != [] && StrictlySorted(os) && Elements(os) == owners
  }

  lemma PinRefines(m: Option<Marker>, owners: set<string>, owner: string)
    requires Represents(m, owners)
    ensures Represents(PinMarker(m, owner), owners + {owner})
  {
    if m.Some? && owner !in m.value.owners {
      var os := m.value.owners;
      assert (os + [owner])[..|os|] == os;
      SortKeepsSorted(os);
      assert SortOwners(os + [owner]) == InsertOwner(os, owner);
      InsertSorted(os, owner);
      InsertMembers(os, owner);
      assert owner in InsertOwner(os, owner);
    }
  }

  lemma UnpinRefines(m: Option<Marker>, owners: set<string>, owner: string)
    requires Represents(m, owners)
    ensures Represents(UnpinMarker(m, owner), owners - {owner})
  {
    if m.Some? {
      var os := m.value.owners;
      WithoutSorted(os, owner);
      WithoutMembers(os, owner);
      assert Elements(Without(os, owner)) == owners - {owner};
      if Without(os, owner) == [] { assert owners - {owner} == {}; }
    }
  }

  /** A pin or unpin that commits, or one that is given up: an I/O error, or a crash between writing
      the temporary file and the rename. */
  datatype Op = PinBy(owner: string) | UnpinBy(owner: string) | GivenUp

  function MarkerAfter(m: Option<Marker>, ops: seq<Op>): Option<Marker> {
    if ops == [] then m
    else
      var before := MarkerAfter(m, ops[..|ops| - 1]);
      match ops[|ops| - 1]
      case PinBy(o) => PinMarker(before, o)
      case UnpinBy(o) => UnpinMarker(before, o)
      case GivenUp => before
  }

  function OwnersAfter(owners: set<string>, ops: seq<Op>): set<string> {
    if ops == [] then owners
    else
      var before := OwnersAfter(owners, ops[..|ops| - 1]);
      match ops[|ops| - 1]
      case PinBy(o) => before + {o}
      case UnpinBy(o) => before - {o}
      case GivenUp => before
  }

  /** From no marker on, after any sequence of pins and unpins, the marker exists iff some owner is
      left and lists exactly the owners left, strictly sorted. */
  lemma {:induction false} MarkerIsOwnerSet(ops: seq<Op>)
    ensures Represents(MarkerAfter(None, ops), OwnersAfter({}, ops))
  {
    if ops != [] {
      var init := ops[..|ops| - 1];
      MarkerIsOwnerSet(init);
      match ops[|ops| - 1]
      case PinBy(o) => PinRefines(MarkerAfter(None, init), OwnersAfter({}, init), o);
      case UnpinBy(o) => UnpinRefines(MarkerAfter(None, init), OwnersAfter({}, init), o);
      case GivenUp =>
    }
  }

  /** A user's marker is never changed or removed. */
  lemma {:induction false} UnmanagedUntouched(content: string, ops: seq<Op>)
    ensures MarkerAfter(Some(Unmanaged(content)), ops) == Some(Unmanaged(content))
  {
    if ops != [] { UnmanagedUntouched(content, ops[..|ops| - 1]); }
  }

  // ---------- the file operations ----------

  /** Where the file system or the process gives up during one marker update. */
  datatype Fault = NoFault | ReadFails | WriteFails | RenameFails | CrashBeforeRename

  /** removeString: filters a slice in place and returns the length of what is left. */
  method RemoveString(items: array<string>, remove: string) returns (n: nat)
    modifies items
    ensures n <= items.Length && items[..n] == Without(old(items[..]), remove)
  {
    n := 0;
    for i := 0 to items.Length
      invariant n <= i
      invariant items[..n] == Without(old(items[..])[..i], remove)
      invariant items[i..] == old(items[..])[i..]
    {
      assert old(items[..])[..i + 1][..i] == old(items[..])[..i];
      var item := items[i];
      assert item == items[i..][0] == old(items[..])[i];
      if item != remove {
        items[n] := item;
        n := n + 1;
      }
      assert items[i + 1..] == old(items[..])[i + 1..] by {
        assert forall k :: i + 1 <= k < items.Length ==> items[k] == old(items[..])[k];
      }
    }
    assert old(items[..])[..items.Length] == old(items[..]);
  }

  class PinStore {
    /** Archives that can be read from the operator. */
    var archives: set<string>
    var keep: map<string, Marker>
    /** Left-over or half-done temporary files. */
    var temp: map<string, Marker>

    constructor ()
      ensures archives == {} && keep == map[] && temp == map[]
    {
      archives, keep, temp := {}, map[], map[];
    }

    function MarkerOf(path: string): Option<Marker>
      reads this
    {
      if path in keep then Some(keep[path]) else None
    }

    /** Temporary file, then rename onto the marker; only the rename changes the marker. */
    method WriteMarker(path: string, m: Marker, fault: Fault) returns (ok: bool)
      requires fault != ReadFails
      modifies `keep, `temp
      ensures ok == (fault == NoFault)
      ensures keep == if ok then old(keep)[path := m] else old(keep)
      ensures forall q :: q != path ==> (q in temp <==> q in old(temp)) && (q in temp ==> temp[q] == old(temp)[q])
    {
      if fault == WriteFails { return false; }
      temp := temp[path := m];
      if fault == CrashBeforeRename { return false; }
      if fault == RenameFails {
        temp := temp - {path};
        return false;
      }
      keep := keep[path := m];
      temp := temp - {path};
      return true;
    }

    /** Reports true when the marker protects the archive on behalf of owner, or is the user's. */
    method PinCheckpoint(path: string, owner: string, fault: Fault) returns (pinned: bool)
      modifies `keep, `temp
      ensures MarkerOf(path) == if pinned then PinMarker(old(MarkerOf(path)), owner) else old(MarkerOf(path))
      ensures forall q :: q != path ==> (q in keep <==> q in old(keep)) && (q in keep ==> keep[q] == old(keep)[q])
      ensures pinned ==> path in archives && path in keep
      ensures path in archives && fault == NoFault ==> pinned
    {
      if path !in archives { return false; }
      if fault == ReadFails { return false; }
      if path !in keep {
        pinned := WriteMarker(path, Managed([owner]), fault);
        return;
      }
      var marker := keep[path];
      if marker.Unmanaged? { return true; }
      if owner in marker.owners { return true; }
      pinned := WriteMarker(path, Managed(SortOwners(marker.owners + [owner])), fault);
    }

    method UnpinCheckpoint(path: string, owner: string, fault: Fault)
      modifies `keep, `temp
      ensures MarkerOf(path) == UnpinMarker(old(MarkerOf(path)), owner) ||
              (fault != NoFault && MarkerOf(path) == old(MarkerOf(path)))
      ensures forall q :: q != path ==> (q in keep <==> q in old(keep)) && (q in keep ==> keep[q] == old(keep)[q])
    {
      if fault == ReadFails || path !in keep { return; }
      var marker := keep[path];
      if marker.Unmanaged? { return; }
      var items := new string[|marker.owners|](i requires 0 <= i < |marker.owners| => marker.owners[i]);
      assert items[..] == marker.owners;
      var n := RemoveString(items, owner);
      if n == |marker.owners| { return; }
      if n > 0 {
        var ok := WriteMarker(path, Managed(items[..n]), fault);
        return;
      }
      if fault == NoFault { keep := keep - {path}; }
    }
  }
}
