/** The path rule shared by the PodRestore controller and the node-side proxy: absolute, lexically
    clean, a .tar directly inside the checkpoint directory. */
module CheckpointPaths {
  import opened Common

  const DEFAULT_CHECKPOINT_DIR := "/var/lib/kubelet/checkpoints"

  // ---------- lexical path operations ----------

  /** strings.Split by '/'. */
  function Split(s: string): (cs: seq<string>)
    ensures cs != []
  {
    if s == [] then [""] else Prepend(s[0], Split(s[1..]))
  }

  function Prepend(c: char, cs: seq<string>): (r: seq<string>)
    requires cs != []
    ensures r != []
  {
    if c == '/' then [""] + cs else [[c] + cs[0]] + cs[1..]
  }

  function Join(cs: seq<string>): string {
    if cs == [] then ""
    else if |cs| == 1 then cs[0]
    else cs[0] + "/" + Join(cs[1..])
  }

  /** Resolves "", "." and ".." element by element. */
  function Normalize(cs: seq<string>, rooted: bool, stack: seq<string>): seq<string>
    decreases |cs|
  {
    if cs == [] then stack
    else if cs[0] == "" || cs[0] == "." then Normalize(cs[1..], rooted, stack)
    else if cs[0] == ".." then
      if stack != [] && stack[|stack| - 1] != ".." then Normalize(cs[1..], rooted, stack[..|stack| - 1])
      else if rooted then Normalize(cs[1..], rooted, stack)
      else Normalize(cs[1..], rooted, stack + [".."])
    else Normalize(cs[1..], rooted, stack + [cs[0]])
  }

  predicate IsAbs(s: string) { s != [] && s[0] == '/' }

  /** filepath.Clean. */
  function Clean(s: string): string {
    if s == "" then "."
    else
      var body := Join(Normalize(Split(s), IsAbs(s), []));
      if IsAbs(s) then "/" + body else if body == "" then "." else body
  }

  /** Number of characters up to and including the last '/'. */
  function UpToSlash(s: string): (k: nat)
    ensures k <= |s|
  {
    if s == [] then 0 else if s[|s| - 1] == '/' then |s| else UpToSlash(s[..|s| - 1])
  }

  /** filepath.Dir. */
  function Dir(s: string): string { Clean(s[..UpToSlash(s)]) }

  function TrimSlashes(s: string): string {
    if s != [] && s[|s| - 1] == '/' then TrimSlashes(s[..|s| - 1]) else s
  }

  /** filepath.Base. */
  function Base(s: string): string {
    if s == "" then "."
    else
      var t := TrimSlashes(s);
      if t == "" then "/" else t[UpToSlash(t)..]
  }

  /** filepath.Ext: from the last '.' of the last element, or nothing. */
  function Ext(s: string): string {
    if s == [] || s[|s| - 1] == '/' then ""
    else if s[|s| - 1] == '.' then "."
    else
      var e := Ext(s[..|s| - 1]);
      if e == "" then "" else e + [s[|s| - 1]]
  }

  // ---------- the validators ----------

  datatype PathError = EmptyPath | NotAbsolute | NotClean | NotTar | OutsideDir

  function ValidateCheckpointPath(p: string): Option<PathError> {
    if p == "" then Some(EmptyPath)
    else if !IsAbs(p) then Some(NotAbsolute)
    else if Clean(p) != p then Some(NotClean)
    else if Ext(p) != ".tar" then Some(NotTar)
    else None
  }

  function ValidateCheckpointPathInDir(p: string, allowedDir: string): Option<PathError> {
    var e := ValidateCheckpointPath(p);
    if e.Some? then e
    else if Dir(p) != Clean(if allowedDir == "" then DEFAULT_CHECKPOINT_DIR else allowedDir) then Some(OutsideDir)
    else None
  }

  // ---------- splitting and joining ----------

  lemma {:induction false} SplitParts(s: string)
    ensures forall i :: 0 <= i < |Split(s)| ==> '/' !in Split(s)[i]
  {
    if s != [] { SplitParts(s[1..]); }
  }

  lemma PrependConcat(c: char, cs: seq<string>, ds: seq<string>)
    requires cs != []
    ensures Prepend(c, cs + ds) == Prepend(c, cs) + ds
  {
    assert (cs + ds)[0] == cs[0] && (cs + ds)[1..] == cs[1..] + ds;
  }

  lemma {:induction false} SplitConcat(x: string, y: string)
    ensures Split(x + "/" + y) == Split(x) + Split(y)
    decreases |x|
  {
    var s := x + "/" + y;
    if x == [] {
      assert s[0] == '/' && s[1..] == y;
    } else {
      assert s[0] == x[0] && s[1..] == x[1..] + "/" + y;
      SplitConcat(x[1..], y);
      PrependConcat(x[0], Split(x[1..]), Split(y));
    }
  }

  lemma {:induction false} SplitPlain(s: string)
    requires '/' !in s
    ensures Split(s) == [s]
  {
    if s != [] {
      SplitPlain(s[1..]);
      assert s == [s[0]] + s[1..];
    }
  }

  lemma {:induction false} SplitJoin(cs: seq<string>)
    requires cs != [] && forall i :: 0 <= i < |cs| ==> '/' !in cs[i]
    ensures Split(Join(cs)) == cs
    decreases |cs|
  {
    if |cs| == 1 {
      SplitPlain(cs[0]);
    } else {
      SplitJoin(cs[1..]);
      SplitConcat(cs[0], Join(cs[1..]));
      SplitPlain(cs[0]);
    }
  }

  lemma {:induction false} JoinAppend(cs: seq<string>, c: string)
    requires cs != []
    ensures Join(cs + [c]) == Join(cs) + "/" + c
    decreases |cs|
  {
    if |cs| == 1 {
      assert (cs + [c])[1..] == [c];
    } else {
      assert (cs + [c])[1..] == cs[1..] + [c];
      JoinAppend(cs[1..], c);
    }
  }

  // ---------- clean absolute paths ----------

  predicate Good(c: string) { c != "" && c != "." && c != ".." && '/' !in c }

  predicate AllGood(cs: seq<string>) { forall i :: 0 <= i < |cs| ==> Good(cs[i]) }

  lemma {:induction false} NormalizeGood(cs: seq<string>, stack: seq<string>)
    requires AllGood(cs)
    ensures Normalize(cs, true, stack) == stack + cs
    decreases |cs|
  {
    if cs != [] {
      assert Good(cs[0]);
      assert AllGood(cs[1..]) by { assert forall i :: 0 <= i < |cs[1..]| ==> cs[1..][i] == cs[i + 1]; }
      NormalizeGood(cs[1..], stack + [cs[0]]);
    }
  }

  lemma {:induction false} NormalizeYieldsGood(cs: seq<string>, stack: seq<string>)
    requires AllGood(stack) && forall i :: 0 <= i < |cs| ==> '/' !in cs[i]
    ensures AllGood(Normalize(cs, true, stack))
    decreases |cs|
  {
    if cs != [] {
      assert forall i :: 0 <= i < |cs[1..]| ==> cs[1..][i] == cs[i + 1];
      if cs[0] == "" || cs[0] == "." {
        NormalizeYieldsGood(cs[1..], stack);
      } else if cs[0] == ".." {
        NormalizeYieldsGood(cs[1..], stack);
        if stack != [] { NormalizeYieldsGood(cs[1..], stack[..|stack| - 1]); }
      } else {
        NormalizeYieldsGood(cs[1..], stack + [cs[0]]);
      }
    }
  }

  /** The absolute path with these elements. */
  function Rooted(cs: seq<string>): string { "/" + Join(cs) }

  lemma SplitRooted(t: string)
    ensures Split("/" + t) == [""] + Split(t)
  {
    SplitConcat("", t);
    assert "" + "/" + t == "/" + t;
    assert Split("") == [""];
  }

  /** Cleaning an absolute path leaves a list of ordinary elements. */
  lemma CleanYieldsGood(s: string) returns (cs: seq<string>)
    requires IsAbs(s)
    ensures AllGood(cs) && Clean(s) == Rooted(cs)
  {
    SplitParts(s);
    cs := Normalize(Split(s), true, []);
    NormalizeYieldsGood(Split(s), []);
  }

  /** Paths made of ordinary elements are clean, with or without a final slash. */
  lemma RootedIsClean(cs: seq<string>)
    requires AllGood(cs)
    ensures Clean(Rooted(cs)) == Rooted(cs)
    ensures cs != [] ==> Clean(Rooted(cs) + "/") == Rooted(cs)
  {
    SplitRooted(Join(cs));
    if cs == [] {
      assert Split("/") == [""] + [""];
      NormalizeSkips([""] + [""], [""]);
      NormalizeSkips([""], []);
    } else {
      SplitJoin(cs);
      NormalizeSkips([""] + cs, cs);
      NormalizeGood(cs, []);
      assert [] + cs == cs;
      SlashIsDropped(cs);
    }
  }

  lemma SlashIsDropped(cs: seq<string>)
    requires AllGood(cs) && cs != []
    ensures Clean(Rooted(cs) + "/") == Rooted(cs)
  {
    var s := Rooted(cs) + "/";
    assert s == Rooted(cs) + "/" + "";
    SplitRooted(Join(cs));
    SplitJoin(cs);
    SplitConcat(Rooted(cs), "");
    assert Split(s) == [""] + (cs + [""]);
    NormalizeTail(cs);
  }

  lemma NormalizeSkips(cs: seq<string>, rest: seq<string>)
    requires cs == [""] + rest
    ensures Normalize(cs, true, []) == Normalize(rest, true, [])
  {
    assert cs[1..] == rest;
  }

  lemma NormalizeTail(cs: seq<string>)
    requires AllGood(cs)
    ensures Normalize([""] + (cs + [""]), true, []) == cs
  {
    assert ([""] + (cs + [""]))[1..] == cs + [""];
    NormalizeGoodThen(cs, []);
  }

  lemma {:induction false} NormalizeGoodThen(cs: seq<string>, stack: seq<string>)
    requires AllGood(cs)
    ensures Normalize(cs + [""], true, stack) == stack + cs
    decreases |cs|
  {
    var all := cs + [""];
    if cs == [] {
      assert all[1..] == [];
    } else {
      assert Good(cs[0]) && all[0] == cs[0] && all[1..] == cs[1..] + [""];
      assert AllGood(cs[1..]) by { assert forall i :: 0 <= i < |cs[1..]| ==> cs[1..][i] == cs[i + 1]; }
      NormalizeGoodThen(cs[1..], stack + [cs[0]]);
      assert stack + [cs[0]] + cs[1..] == stack + cs;
    }
  }

  /** A clean absolute path is the root or consists of ordinary elements. */
  lemma CleanIsRooted(s: string) returns (cs: seq<string>)
    requires IsAbs(s) && Clean(s) == s
    ensures AllGood(cs) && s == Rooted(cs)
  {
    cs := CleanYieldsGood(s);
  }

  // ---------- directory and extension of an entry ----------

  lemma {:induction false} UpToSlashOf(d: string, base: string)
    requires '/' !in base
    ensures UpToSlash(d + "/" + base) == |d| + 1
    decreases |base|
  {
    var s := d + "/" + base;
    if base != [] {
      assert s[|s| - 1] == base[|base| - 1] && base[|base| - 1] in base;
      assert s[..|s| - 1] == d + "/" + base[..|base| - 1];
      UpToSlashOf(d, base[..|base| - 1]);
    }
  }

  predicate IsTar(base: string) { |base| >= 4 && base[|base| - 4..] == ".tar" }

  lemma ExtOf(s: string)
    ensures Ext(s) == ".tar" <==> IsTar(s)
  {
    ExtEndsWith(s);
    if IsTar(s) {
      var t := s[..|s| - 4];
      assert s == t + ['.'] + ['t'] + ['a'] + ['r'];
      ExtMore(t + ['.'] + ['t'] + ['a'], 'r');
      ExtMore(t + ['.'] + ['t'], 'a');
      ExtMore(t + ['.'], 't');
      ExtMore(t, '.');
    }
  }

  lemma ExtMore(s: string, c: char)
    requires c != '/'
    ensures Ext(s + [c]) == if c == '.' then "." else if Ext(s) == "" then "" else Ext(s) + [c]
  {
    assert (s + [c])[..|s|] == s;
  }

  lemma {:induction false} ExtEndsWith(s: string)
    ensures |Ext(s)| <= |s| && s[|s| - |Ext(s)|..] == Ext(s)
  {
    if s != [] && s[|s| - 1] != '/' && s[|s| - 1] != '.' {
      var init := s[..|s| - 1];
      ExtEndsWith(init);
      assert s == init + [s[|s| - 1]];
    }
  }

  /** The archive directly inside directory d. */
  function Entry(d: string, base: string): string { if d == "/" then "/" + base else d + "/" + base }

  lemma EntryRooted(cs: seq<string>, base: string)
    requires AllGood(cs)
    ensures Entry(Rooted(cs), base) == Rooted(cs + [base])
  {
    if cs == [] {
      assert [] + [base] == [base];
    } else {
      JoinAppend(cs, base);
      JoinNotEmpty(cs);
      assert Rooted(cs) + "/" + base == "/" + (Join(cs) + "/" + base);
    }
  }

  lemma DirOfEntry(cs: seq<string>, base: string)
    requires AllGood(cs) && '/' !in base
    ensures Dir(Entry(Rooted(cs), base)) == Rooted(cs)
  {
    RootedIsClean(cs);
    if cs == [] {
      UpToSlashOf("", base);
      assert "" + "/" + base == "/" + base;
      assert ("/" + base)[..1] == "/" == Rooted([]);
    } else {
      JoinNotEmpty(cs);
      var d := Rooted(cs);
      UpToSlashOf(d, base);
      assert (d + "/" + base)[..|d| + 1] == d + "/";
    }
  }

  lemma JoinNotEmpty(cs: seq<string>)
    requires cs != [] && AllGood(cs)
    ensures Join(cs) != ""
  {
    assert Good(cs[0]);
  }

  lemma TarIsGood(base: string)
    requires '/' !in base && IsTar(base)
    ensures Good(base)
  {
    assert base[|base| - 4..] == ".tar";
  }

  lemma TarHasNoSlash(s: string, k: nat)
    requires |s| - 4 <= k < |s| && IsTar(s)
    ensures s[k] != '/'
  {
    assert s[k] == s[|s| - 4..][k - (|s| - 4)];
  }

  lemma TarOfEntry(prefix: string, base: string)
    requires '/' !in base
    ensures IsTar(prefix + "/" + base) <==> IsTar(base)
  {
    var s := prefix + "/" + base;
    assert s[|prefix|] == '/';
    if |base| >= 4 {
      assert s[|s| - 4..] == base[|base| - 4..];
    } else if IsTar(s) {
      TarHasNoSlash(s, |prefix|);
    }
  }

  /** An accepted path names an entry of the directory it is in. */
  lemma AcceptedIsEntry(p: string) returns (base: string)
    requires ValidateCheckpointPath(p).None?
    ensures IsAbs(Dir(p)) && '/' !in base && IsTar(base) && p == Entry(Dir(p), base)
  {
    var cs := CleanIsRooted(p);
    ExtOf(p);
    base := cs[|cs| - 1];
    SplitLast(cs);
    EntryRooted(cs[..|cs| - 1], base);
    DirOfEntry(cs[..|cs| - 1], base);
    EntryTar(Dir(p), base);
  }

  lemma SplitLast(cs: seq<string>)
    requires cs != [] && AllGood(cs)
    ensures AllGood(cs[..|cs| - 1]) && Good(cs[|cs| - 1]) && cs[..|cs| - 1] + [cs[|cs| - 1]] == cs
  {
  }

  lemma EntryTar(d: string, base: string)
    requires '/' !in base
    ensures IsTar(Entry(d, base)) <==> IsTar(base)
  {
    TarOfEntry(d, base);
    TarOfEntry("", base);
    assert "" + "/" + base == "/" + base;
  }

  lemma {:induction false} GoodAppend(cs: seq<string>, c: string)
    requires AllGood(cs) && Good(c)
    ensures AllGood(cs + [c])
  {
  }

  lemma EntryIsAccepted(dir: string, base: string)
    requires IsAbs(dir) && '/' !in base && IsTar(base)
    ensures ValidateCheckpointPath(Entry(Clean(dir), base)).None?
    ensures Dir(Entry(Clean(dir), base)) == Clean(dir)
  {
    var cs := CleanYieldsGood(dir);
    var p := Entry(Rooted(cs), base);
    EntryRooted(cs, base);
    DirOfEntry(cs, base);
    TarIsGood(base);
    GoodAppend(cs, base);
    RootedIsClean(cs + [base]);
    EntryTar(Rooted(cs), base);
    ExtOf(p);
  }

  predicate Relative(cs: seq<string>) { forall i :: 0 <= i < |cs| ==> cs[i] != "" && '/' !in cs[i] }

  lemma {:induction false} RelativeStays(cs: seq<string>, stack: seq<string>)
    requires Relative(stack) && forall i :: 0 <= i < |cs| ==> '/' !in cs[i]
    ensures Relative(Normalize(cs, false, stack))
    decreases |cs|
  {
    if cs != [] {
      assert forall i :: 0 <= i < |cs[1..]| ==> cs[1..][i] == cs[i + 1];
      if cs[0] == "" || cs[0] == "." {
        RelativeStays(cs[1..], stack);
      } else if cs[0] == ".." && stack != [] && stack[|stack| - 1] != ".." {
        RelativeStays(cs[1..], stack[..|stack| - 1]);
      } else {
        RelativeStays(cs[1..], stack + [cs[0]]);
      }
    }
  }

  /** Only an absolute directory cleans to an absolute one. */
  lemma CleanAbs(s: string)
    requires IsAbs(Clean(s))
    ensures IsAbs(s)
  {
    if s != "" && !IsAbs(s) {
      SplitParts(s);
      RelativeStays(Split(s), []);
      JoinRelative(Normalize(Split(s), false, []));
    }
  }

  lemma JoinRelative(cs: seq<string>)
    requires Relative(cs)
    ensures !IsAbs(Join(cs))
  {
    if cs != [] {
      assert Join(cs)[0] == cs[0][0] && cs[0][0] in cs[0];
    }
  }

  /** Confinement: a path is accepted exactly when it is a .tar entry directly inside the cleaned,
      absolute checkpoint directory. */
  lemma AcceptedPathExact(p: string, allowedDir: string)
    ensures var d := Clean(if allowedDir == "" then DEFAULT_CHECKPOINT_DIR else allowedDir);
            ValidateCheckpointPathInDir(p, allowedDir).None? <==>
            IsAbs(d) && exists base :: '/' !in base && IsTar(base) && p == Entry(d, base)
  {
    var dir := if allowedDir == "" then DEFAULT_CHECKPOINT_DIR else allowedDir;
    var d := Clean(dir);
    if ValidateCheckpointPathInDir(p, allowedDir).None? {
      var base := AcceptedIsEntry(p);
    }
    if IsAbs(d) {
      forall base | '/' !in base && IsTar(base) && p == Entry(d, base)
        ensures ValidateCheckpointPathInDir(p, allowedDir).None?
      {
        CleanAbs(dir);
        EntryIsAccepted(dir, base);
      }
    }
  }

  // ---------- cleaning keeps the meaning of a path ----------

  /** One step of a walk: an element of a path leads from one directory to another. */
  function Enter(at: seq<string>, c: string): seq<string> {
    if c == "" || c == "." then at
    else if c == ".." then (if at == [] then [] else at[..|at| - 1])
    else at + [c]
  }

  /** The directory, as its names from the root, that a walk along the elements leads to. */
  function Walk(at: seq<string>, cs: seq<string>): seq<string> {
    if cs == [] then at else Enter(Walk(at, cs[..|cs| - 1]), cs[|cs| - 1])
  }

  /** Where a path leads from a working directory. */
  function Leads(wd: seq<string>, s: string): seq<string> { Walk(if IsAbs(s) then [] else wd, Split(s)) }

  lemma {:induction false} WalkConcat(at: seq<string>, a: seq<string>, b: seq<string>)
    ensures Walk(at, a + b) == Walk(Walk(at, a), b)
    decreases |b|
  {
    if b == [] {
      assert a + b == a;
    } else {
      assert (a + b)[..|a + b| - 1] == a + b[..|b| - 1];
      WalkConcat(at, a, b[..|b| - 1]);
    }
  }

  lemma WalkFrom(at: seq<string>, c: string, rest: seq<string>)
    ensures Walk(at, [c] + rest) == Walk(Enter(at, c), rest)
  {
    WalkConcat(at, [c], rest);
    assert [c][..0] == [];
  }

  lemma WalkOn(at: seq<string>, cs: seq<string>, c: string)
    ensures Walk(at, cs + [c]) == Enter(Walk(at, cs), c)
  {
    assert (cs + [c])[..|cs|] == cs;
  }

  /** What is on the stack so far: names, and ".." in front of them unless the path is rooted. */
  predicate Stacked(stack: seq<string>, rooted: bool) {
    Relative(stack) && forall i :: 0 <= i < |stack| ==> stack[i] != "." && (rooted ==> stack[i] != "..")
  }

  lemma {:induction false} RootedStack(stack: seq<string>)
    requires Stacked(stack, true)
    ensures Walk([], stack) == stack
  {
    if stack != [] { RootedStack(stack[..|stack| - 1]); }
  }

  /** Resolving the elements does not change where they lead, from the root if the path is rooted. */
  lemma {:induction false} NormalizeLeads(at: seq<string>, cs: seq<string>, rooted: bool, stack: seq<string>)
    requires Stacked(stack, rooted) && (rooted ==> at == []) && forall i :: 0 <= i < |cs| ==> '/' !in cs[i]
    ensures Stacked(Normalize(cs, rooted, stack), rooted)
    ensures Walk(at, Normalize(cs, rooted, stack)) == Walk(Walk(at, stack), cs)
    decreases |cs|
  {
    if cs != [] {
      var c, rest, last := cs[0], cs[1..], |stack| - 1;
      assert cs == [c] + rest;
      WalkFrom(Walk(at, stack), c, rest);
      if c == "" || c == "." {
        NormalizeLeads(at, rest, rooted, stack);
      } else if c == ".." && stack != [] && stack[last] != ".." {
        NormalizeLeads(at, rest, rooted, stack[..last]);
      } else if c == ".." && rooted {
        RootedStack(stack);
        NormalizeLeads(at, rest, rooted, stack);
      } else {
        WalkOn(at, stack, c);
        NormalizeLeads(at, rest, rooted, stack + [c]);
      }
    }
  }

  /** Meaning: a path and its cleaned form lead to the same place from every working directory, and
      are both absolute or both relative. */
  lemma CleanLeadsToTheSame(s: string, wd: seq<string>)
    ensures IsAbs(Clean(s)) == IsAbs(s) && Leads(wd, Clean(s)) == Leads(wd, s)
  {
    if IsAbs(Clean(s)) { CleanAbs(s); }
    SplitPlain(".");
    SplitPlain("");
    if s != "" {
      SplitParts(s);
      var at, cs := if IsAbs(s) then [] else wd, Normalize(Split(s), IsAbs(s), []);
      NormalizeLeads(at, Split(s), IsAbs(s), []);
      if cs != [] { SplitJoin(cs); }
      if IsAbs(s) {
        SplitConcat("", Join(cs));
        assert "/" + Join(cs) == "" + "/" + Join(cs);
        WalkFrom(at, "", Split(Join(cs)));
        if cs == [] { WalkFrom(at, "", []); }
      } else if cs == [] {
        WalkFrom(at, ".", []);
      }
    } else {
      WalkFrom(wd, ".", []);
      WalkFrom(wd, "", []);
    }
  }
}
