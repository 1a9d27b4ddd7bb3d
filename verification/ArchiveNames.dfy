/** File names of checkpoint archives: the kubelet's naming convention, the glob patterns the
    retention collector builds from it, and the namespace check PodRestore makes on a file name. */
module ArchiveNames {

  // ---------- glob patterns ----------

  /** One element of a glob pattern: a literal character, a character range, or "*". */
  datatype Glyph = Lit(c: char) | Range(lo: char, hi: char) | Star

  predicate Fits(g: Glyph, c: char) {
    match g
    case Lit(l) => c == l
    case Range(lo, hi) => lo <= c <= hi
    case Star => false
  }

  /** filepath.Match on one path element: "*" stands for any run of characters other than '/'. */
  predicate Matches(p: seq<Glyph>, s: string)
    decreases |p| + |s|
  {
    if p == [] then s == []
    else if p[0].Star? then
      Matches(p[1..], s) || (s != [] && s[0] != '/' && Matches(p, s[1..]))
    else
      s != [] && Fits(p[0], s[0]) && Matches(p[1..], s[1..])
  }

  function Lits(s: string): (p: seq<Glyph>)
    ensures |p| == |s| && forall i :: 0 <= i < |s| ==> p[i] == Lit(s[i])
  {
    seq(|s|, i requires 0 <= i < |s| => Lit(s[i]))
  }

  predicate StarFree(p: seq<Glyph>) {
    forall i :: 0 <= i < |p| ==> !p[i].Star?
  }

  predicate FitsAll(p: seq<Glyph>, s: string) {
    |p| == |s| && forall i :: 0 <= i < |p| ==> Fits(p[i], s[i])
  }

  /** A star-free head of a pattern consumes exactly its own length. */
  lemma {:induction false} MatchHead(head: seq<Glyph>, rest: seq<Glyph>, s: string)
    requires StarFree(head)
    ensures Matches(head + rest, s) <==>
            |s| >= |head| && FitsAll(head, s[..|head|]) && Matches(rest, s[|head|..])
    decreases |head|
  {
    if head == [] {
      assert head + rest == rest && s[0..] == s;
    } else {
      var p := head + rest;
      assert p[0] == head[0] && p[1..] == head[1..] + rest;
      if s != [] && Fits(p[0], s[0]) {
        MatchHead(head[1..], rest, s[1..]);
        if |s| >= |head| {
          assert s[1..][|head| - 1..] == s[|head|..];
          assert s[1..][..|head| - 1] == s[..|head|][1..];
          if FitsAll(head[1..], s[..|head|][1..]) {
            forall i | 0 <= i < |head| ensures Fits(head[i], s[..|head|][i]) {
              if i > 0 { assert head[1..][i - 1] == head[i] && s[..|head|][1..][i - 1] == s[..|head|][i]; }
            }
          }
          if FitsAll(head, s[..|head|]) {
            forall i | 0 <= i < |head| - 1 ensures Fits(head[1..][i], s[..|head|][1..][i]) {
              assert Fits(head[i + 1], s[..|head|][i + 1]);
            }
          }
        }
      } else if |s| >= |head| {
        assert s[..|head|][0] == s[0];
      }
    }
  }

  /** "*" in front of a pattern lets it match at any later position. */
  lemma {:induction false} MatchStar(rest: seq<Glyph>, s: string)
    requires '/' !in s
    ensures Matches([Star] + rest, s) <==> exists k :: 0 <= k <= |s| && Matches(rest, s[k..])
    decreases |s|
  {
    var p := [Star] + rest;
    assert p[0] == Star && p[1..] == rest && s[0..] == s;
    if s != [] {
      MatchStar(rest, s[1..]);
      if Matches(p, s[1..]) {
        var k :| 0 <= k <= |s[1..]| && Matches(rest, s[1..][k..]);
        assert s[1..][k..] == s[k + 1..];
      }
      if k :| 0 <= k <= |s| && Matches(rest, s[k..]) {
        if k > 0 { assert s[1..][k - 1..] == s[k..]; }
      }
    }
  }

  predicate EndsWith(s: string, w: string) {
    |s| >= |w| && s[|s| - |w|..] == w
  }

  lemma MatchLiteral(w: string, s: string)
    ensures Matches(Lits(w), s) <==> s == w
  {
    MatchHead(Lits(w), [], s);
    assert Lits(w) + [] == Lits(w);
    if |s| == |w| { assert s[..|w|] == s; }
  }

  /** The tail "*<w>" of a pattern. */
  lemma MatchStarSuffix(w: string, s: string)
    requires '/' !in s
    ensures Matches([Star] + Lits(w), s) <==> EndsWith(s, w)
  {
    MatchStar(Lits(w), s);
    forall k | 0 <= k <= |s| { MatchLiteral(w, s[k..]); }
  }

  lemma MatchDashAt(w: string, s: string, k: nat)
    requires '/' !in s && k <= |s|
    ensures Matches([Lit('-')] + ([Star] + Lits(w)), s[k..]) <==> k < |s| && s[k] == '-' && EndsWith(s[k + 1..], w)
  {
    MatchHead([Lit('-')], [Star] + Lits(w), s[k..]);
    if k < |s| {
      assert s[k..][1..] == s[k + 1..];
      assert s[k..][..1] == [s[k]];
      MatchStarSuffix(w, s[k + 1..]);
    }
  }

  /** The tail "*-*<w>" of a pattern: a dash somewhere in front of the suffix. */
  lemma MatchDashSuffix(w: string, s: string)
    requires '/' !in s
    ensures Matches([Star, Lit('-'), Star] + Lits(w), s) <==>
            EndsWith(s, w) && '-' in s[..|s| - |w|]
  {
    var tail := [Lit('-')] + ([Star] + Lits(w));
    assert [Star, Lit('-'), Star] + Lits(w) == [Star] + tail;
    MatchStar(tail, s);
    forall k: nat | k <= |s|
      ensures Matches(tail, s[k..]) <==> k < |s| - |w| && s[k] == '-' && EndsWith(s, w)
    {
      MatchDashAt(w, s, k);
      if k < |s| { SuffixAfter(w, s, k); }
    }
    if EndsWith(s, w) && '-' in s[..|s| - |w|] {
      var k :| 0 <= k < |s| - |w| && s[..|s| - |w|][k] == '-';
      assert Matches(tail, s[k..]);
    }
    if k :| 0 <= k <= |s| && Matches(tail, s[k..]) {
      assert s[..|s| - |w|][k] == '-';
    }
  }

  lemma SuffixAfter(w: string, s: string, k: nat)
    requires k < |s|
    ensures EndsWith(s[k + 1..], w) <==> k < |s| - |w| && EndsWith(s, w)
  {
    if k < |s| - |w| { assert s[k + 1..][|s[k + 1..]| - |w|..] == s[|s| - |w|..]; }
  }

  // ---------- the kubelet's naming convention ----------

  predicate NameChar(c: char) {
    'a' <= c <= 'z' || '0' <= c <= '9' || c == '-' || c == '.'
  }

  /** A Kubernetes object name: lower case, digits, '-' and '.', not ending in '-'. */
  predicate IsName(s: string) {
    s != [] && s[|s| - 1] != '-' && forall i :: 0 <= i < |s| ==> NameChar(s[i])
  }

  predicate IsDigit(c: char) { '0' <= c <= '9' }

  function TwoDigits(s: string, i: nat): int
    requires i + 1 < |s|
  {
    10 * (s[i] as int - '0' as int) + (s[i + 1] as int - '0' as int)
  }

  /** "Z" or a numeric offset (time-offset of section 5.6 of RFC 3339). */
  predicate IsOffset(t: string) {
    t == "Z" ||
    (|t| == 6 && (t[0] == '+' || t[0] == '-') && t[3] == ':' &&
     IsDigit(t[1]) && IsDigit(t[2]) && IsDigit(t[4]) && IsDigit(t[5]))
  }

  /** Optional fraction of a second, then the offset. */
  predicate IsZone(t: string) {
    IsOffset(t) ||
    (|t| >= 2 && t[0] == '.' && IsDigit(t[1]) &&
     exists k :: 2 <= k <= |t| && (forall i :: 1 <= i < k ==> IsDigit(t[i])) && IsOffset(t[k..]))
  }

  /** date-time of section 5.6 of RFC 3339, with the upper-case "T" and "Z" that Go prints. */
  predicate IsTimestamp(ts: string) {
    && |ts| >= 20
    && IsDigit(ts[0]) && IsDigit(ts[1]) && IsDigit(ts[2]) && IsDigit(ts[3])
    && IsDigit(ts[5]) && IsDigit(ts[6]) && IsDigit(ts[8]) && IsDigit(ts[9])
    && IsDigit(ts[11]) && IsDigit(ts[12]) && IsDigit(ts[14]) && IsDigit(ts[15]) && IsDigit(ts[17]) && IsDigit(ts[18])
    && ts[4] == '-' && ts[7] == '-' && ts[10] == 'T' && ts[13] == ':' && ts[16] == ':'
    && 1 <= TwoDigits(ts, 5) <= 12 && 1 <= TwoDigits(ts, 8) <= 31
    && TwoDigits(ts, 11) <= 23 && TwoDigits(ts, 14) <= 59 && TwoDigits(ts, 17) <= 60
    && IsZone(ts[19..])
  }

  /** Everything of a kubelet archive name behind the first underscore. */
  function AfterPod(ns: string, container: string, ts: string): string {
    ns + "-" + container + "-" + ts + ".tar"
  }

  function KubeletName(pod: string, ns: string, container: string, ts: string): string {
    "checkpoint-" + pod + "_" + AfterPod(ns, container, ts)
  }

  const DIGIT := Range('0', '9')

  /** [0-9][0-9][0-9][0-9]-[0-2][0-9]-[0-3][0-9]T[0-2][0-9]:[0-5][0-9]:[0-6][0-9] */
  function DateGlyphs(): seq<Glyph> {
    [DIGIT, DIGIT, DIGIT, DIGIT, Lit('-'), Range('0', '2'), DIGIT, Lit('-'), Range('0', '3'), DIGIT, Lit('T'),
     Range('0', '2'), DIGIT, Lit(':'), Range('0', '5'), DIGIT, Lit(':'), Range('0', '6'), DIGIT]
  }

  function ContainerPattern(pod: string, ns: string, container: string): seq<Glyph> {
    Lits("checkpoint-" + pod + "_" + ns + "-" + container + "-") + DateGlyphs() + [Star] + Lits(".tar")
  }

  function PodPattern(pod: string, ns: string): seq<Glyph> {
    Lits("checkpoint-" + pod + "_" + ns + "-") + ([Star, Lit('-'), Star] + Lits(".tar"))
  }

  function NamespacePattern(ns: string): seq<Glyph> {
    Lits("checkpoint-") + ([Star] + (Lits("_" + ns + "-") + ([Star, Lit('-'), Star] + Lits(".tar"))))
  }

  // ---------- what the patterns catch ----------

  lemma OffsetChars(t: string, i: nat)
    requires IsOffset(t) && i < |t|
    ensures t[i] != 'T' && t[i] != '/' && t[i] != '_'
  {
  }

  lemma ZoneChars(t: string)
    requires IsZone(t)
    ensures forall i :: 0 <= i < |t| ==> t[i] != 'T' && t[i] != '/' && t[i] != '_'
  {
    if IsOffset(t) {
      forall i | 0 <= i < |t| ensures t[i] != 'T' && t[i] != '/' && t[i] != '_' { OffsetChars(t, i); }
    } else {
      var k :| 2 <= k <= |t| && (forall i :: 1 <= i < k ==> IsDigit(t[i])) && IsOffset(t[k..]);
      forall i | 0 <= i < |t| ensures t[i] != 'T' && t[i] != '/' && t[i] != '_' {
        if i >= k { OffsetChars(t[k..], i - k); }
      }
    }
  }

  /** In a timestamp the letter T stands at position 10 only. */
  lemma TimestampChars(ts: string)
    requires IsTimestamp(ts)
    ensures forall i :: 0 <= i < |ts| ==> (ts[i] == 'T' <==> i == 10) && ts[i] != '/' && ts[i] != '_'
    ensures FitsAll(DateGlyphs(), ts[..19])
  {
    ZoneChars(ts[19..]);
    forall i | 0 <= i < |ts| ensures (ts[i] == 'T' <==> i == 10) && ts[i] != '/' && ts[i] != '_' {
      if i >= 19 {
        assert ts[i] == ts[19..][i - 19];
      }
    }
    DateFits(ts);
  }

  lemma DateFits(ts: string)
    requires IsTimestamp(ts)
    ensures FitsAll(DateGlyphs(), ts[..19])
  {
    assert '0' <= ts[5] <= '2' && '0' <= ts[8] <= '3' && '0' <= ts[11] <= '2';
    assert '0' <= ts[14] <= '5' && '0' <= ts[17] <= '6';
    var p, s := DateGlyphs(), ts[..19];
    assert Fits(p[0], s[0]) && Fits(p[1], s[1]) && Fits(p[2], s[2]) && Fits(p[3], s[3]) && Fits(p[4], s[4]);
    assert Fits(p[5], s[5]) && Fits(p[6], s[6]) && Fits(p[7], s[7]) && Fits(p[8], s[8]) && Fits(p[9], s[9]);
    assert Fits(p[10], s[10]) && Fits(p[11], s[11]) && Fits(p[12], s[12]) && Fits(p[13], s[13]);
    assert Fits(p[14], s[14]) && Fits(p[15], s[15]) && Fits(p[16], s[16]) && Fits(p[17], s[17]) && Fits(p[18], s[18]);
  }

  /** No '/' and no '_' behind the first underscore of a kubelet name. */
  lemma AfterPodChars(ns: string, container: string, ts: string)
    requires IsName(ns) && IsName(container) && IsTimestamp(ts)
    ensures forall i :: 0 <= i < |AfterPod(ns, container, ts)| ==>
              AfterPod(ns, container, ts)[i] != '/' && AfterPod(ns, container, ts)[i] != '_'
  {
    TimestampChars(ts);
    assert forall c :: NameChar(c) ==> c != '/' && c != '_';
  }

  lemma KubeletNameChars(pod: string, ns: string, container: string, ts: string)
    requires IsName(pod) && IsName(ns) && IsName(container) && IsTimestamp(ts)
    ensures '/' !in KubeletName(pod, ns, container, ts)
  {
    AfterPodChars(ns, container, ts);
    var a := "checkpoint-" + pod + "_";
    assert '/' !in a by { assert forall i :: 0 <= i < |pod| ==> NameChar(pod[i]); }
    assert '/' !in AfterPod(ns, container, ts);
    assert KubeletName(pod, ns, container, ts) == a + AfterPod(ns, container, ts);
  }

  lemma FirstUnderscore(p: string, x: string)
    requires '_' !in p
    ensures (p + "_" + x)[|p|] == '_'
    ensures forall i :: 0 <= i < |p| ==> (p + "_" + x)[i] != '_'
  {
    forall i | 0 <= i < |p| ensures (p + "_" + x)[i] != '_' { assert (p + "_" + x)[i] == p[i]; }
  }

  /** A name part without '_' is delimited by the first '_' that follows it. */
  lemma SplitAtUnderscore(p: string, x: string, q: string, y: string)
    requires '_' !in p && '_' !in q
    ensures p + "_" + x <= q + "_" + y <==> p == q && x <= y
  {
    var l, r := p + "_" + x, q + "_" + y;
    if l <= r {
      FirstUnderscore(p, x);
      FirstUnderscore(q, y);
      assert |p| == |q|;
      assert p == l[..|p|] == r[..|q|] == q;
      assert x == l[|p| + 1..];
      assert y == r[|q| + 1..];
      assert l <= r && |p| == |q|;
      forall i | 0 <= i < |x| ensures x[i] == y[i] { assert l[|p| + 1 + i] == r[|q| + 1 + i]; }
    }
  }

  lemma PrefixCancel(a: string, s: string, t: string)
    ensures a + s <= a + t <==> s <= t
  {
    if a + s <= a + t {
      forall i | 0 <= i < |s| ensures s[i] == t[i] { assert (a + s)[|a| + i] == (a + t)[|a| + i]; }
    }
  }

  /** Literal head, then a pattern: the form all three scopes share. */
  lemma MatchLitHead(w: string, rest: seq<Glyph>, s: string)
    ensures Matches(Lits(w) + rest, s) <==> w <= s && Matches(rest, s[|w|..])
  {
    MatchHead(Lits(w), rest, s);
  }

  /** The dash-joined key behind the pod name is where two containers can be confused. */
  function ScopeKey(ns: string, container: string): string { ns + "-" + container }

  predicate KeyChars(key: string) {
    forall i :: 0 <= i < |key| ==> NameChar(key[i])
  }

  /** What follows the literal key in a container pattern. */
  function DateTail(): seq<Glyph> { DateGlyphs() + ([Star] + Lits(".tar")) }

  /** The only T of "<key>-<timestamp>.tar" sits ten characters into the timestamp. */
  lemma PositionOfT(key: string, ts: string, at: nat)
    requires IsTimestamp(ts) && KeyChars(key)
    requires at < |key + "-" + ts + ".tar"| && (key + "-" + ts + ".tar")[at] == 'T'
    ensures at == |key| + 11
  {
    TimestampChars(ts);
    var s := key + "-" + ts + ".tar";
    assert forall i :: 0 <= i < |key| ==> s[i] == key[i] && NameChar(s[i]);
    assert forall i :: 0 <= i < |ts| ==> s[|key| + 1 + i] == ts[i];
    assert s[|key| + 1 + |ts|..] == ".tar";
  }

  lemma DateTailForces(key: string, key': string, ts: string)
    requires IsTimestamp(ts) && KeyChars(key')
    requires key + "-" <= key' + "-" + ts + ".tar"
    requires Matches(DateTail(), (key' + "-" + ts + ".tar")[|key| + 1..])
    ensures key == key'
  {
    var s := key' + "-" + ts + ".tar";
    var tail := s[|key| + 1..];
    MatchHead(DateGlyphs(), [Star] + Lits(".tar"), tail);
    assert Fits(DateGlyphs()[10], tail[..19][10]);
    PositionOfT(key', ts, |key| + 11);
    assert key == (key + "-")[..|key|] == s[..|key|] == key';
  }

  lemma DateTailHolds(ts: string)
    requires IsTimestamp(ts)
    ensures Matches(DateTail(), ts + ".tar")
  {
    TimestampChars(ts);
    var tail := ts + ".tar";
    MatchHead(DateGlyphs(), [Star] + Lits(".tar"), tail);
    assert tail[..19] == ts[..19];
    assert tail[19..] == ts[19..] + ".tar";
    NoSlashAfterDate(ts);
    MatchStarSuffix(".tar", tail[19..]);
  }

  lemma NoSlashAfterDate(ts: string)
    requires |ts| >= 19 && '/' !in ts
    ensures '/' !in (ts + ".tar")[19..]
  {
    assert (ts + ".tar")[19..] == ts[19..] + ".tar";
  }

  /** Behind the pod: the literal key, the date glyphs and "*.tar" match exactly the same key. */
  lemma ContainerTailExact(key: string, key': string, ts: string)
    requires IsTimestamp(ts) && KeyChars(key')
    ensures (key + "-" <= key' + "-" + ts + ".tar" &&
             Matches(DateTail(), (key' + "-" + ts + ".tar")[|key| + 1..]))
            <==> key == key'
  {
    var s := key' + "-" + ts + ".tar";
    if key + "-" <= s && Matches(DateTail(), s[|key| + 1..]) {
      DateTailForces(key, key', ts);
    }
    if key == key' {
      assert s == (key + "-") + (ts + ".tar");
      assert s[|key| + 1..] == ts + ".tar";
      DateTailHolds(ts);
    }
  }

  /** The container scope catches an archive iff pod and dash-joined key agree. */
  lemma ContainerGlobExact(pod: string, ns: string, container: string,
                           pod': string, ns': string, container': string, ts: string)
    requires IsName(pod) && IsName(ns) && IsName(container)
    requires IsName(pod') && IsName(ns') && IsName(container') && IsTimestamp(ts)
    ensures Matches(ContainerPattern(pod, ns, container), KubeletName(pod', ns', container', ts)) <==>
            pod == pod' && ScopeKey(ns, container) == ScopeKey(ns', container')
  {
    var key, key' := ScopeKey(ns, container), ScopeKey(ns', container');
    var s := KubeletName(pod', ns', container', ts);
    var after := key' + "-" + ts + ".tar";
    assert after == AfterPod(ns', container', ts);
    var w := "checkpoint-" + (pod + "_" + (key + "-"));
    assert w == "checkpoint-" + pod + "_" + ns + "-" + container + "-";
    assert s == "checkpoint-" + (pod' + "_" + after);
    assert ContainerPattern(pod, ns, container) == Lits(w) + DateTail();
    MatchLitHead(w, DateTail(), s);
    PrefixCancel("checkpoint-", pod + "_" + (key + "-"), pod' + "_" + after);
    assert forall c :: NameChar(c) ==> c != '_';
    SplitAtUnderscore(pod, key + "-", pod', after);
    assert w <= s <==> pod == pod' && key + "-" <= after;
    ContainerTailExact(key, key', ts);
    if pod == pod' && key + "-" <= after {
      assert s == ("checkpoint-" + pod + "_") + after;
      assert |w| == |"checkpoint-" + pod + "_"| + |key| + 1;
      assert s[|w|..] == after[|key| + 1..];
    }
  }

  /** Within one namespace a sibling container is never caught, whatever its name extends. */
  lemma SiblingNeverCaught(pod: string, ns: string, container: string, container': string, ts: string)
    requires IsName(pod) && IsName(ns) && IsName(container) && IsName(container') && IsTimestamp(ts)
    ensures Matches(ContainerPattern(pod, ns, container), KubeletName(pod, ns, container', ts)) <==>
            container == container'
  {
    ContainerGlobExact(pod, ns, container, pod, ns, container', ts);
    if ScopeKey(ns, container) == ScopeKey(ns, container') {
      assert container == ScopeKey(ns, container)[|ns| + 1..];
      assert container' == ScopeKey(ns, container')[|ns| + 1..];
    }
  }

  /** "*-*.tar", the end of the pod and namespace patterns. */
  function DashTail(): seq<Glyph> { [Star, Lit('-'), Star] + Lits(".tar") }

  /** "<ns>-", then something with a dash, then ".tar". */
  predicate CatchesTail(ns: string, after: string) {
    ns + "-" <= after && EndsWith(after[|ns| + 1..], ".tar") &&
    '-' in after[|ns| + 1..|after| - 4]
  }

  lemma DashTailExact(ns: string, after: string)
    requires '/' !in after
    ensures ns + "-" <= after && Matches(DashTail(), after[|ns| + 1..]) <==> CatchesTail(ns, after)
  {
    if ns + "-" <= after {
      var tail := after[|ns| + 1..];
      MatchDashSuffix(".tar", tail);
      if EndsWith(tail, ".tar") {
        assert tail[..|tail| - 4] == after[|ns| + 1..|after| - 4];
      }
    }
  }

  /** The pod scope: same pod, and the wanted namespace with its dash begins what follows. */
  lemma PodGlobExact(pod: string, ns: string, pod': string, ns': string, container': string, ts: string)
    requires IsName(pod) && IsName(ns)
    requires IsName(pod') && IsName(ns') && IsName(container') && IsTimestamp(ts)
    ensures Matches(PodPattern(pod, ns), KubeletName(pod', ns', container', ts)) <==>
            pod == pod' && CatchesTail(ns, AfterPod(ns', container', ts))
  {
    var after := AfterPod(ns', container', ts);
    AfterPodChars(ns', container', ts);
    assert '_' !in pod && '_' !in pod' by { assert !NameChar('_'); }
    PodHeadExact(pod, ns, pod', after);
  }

  lemma PodHeadExact(pod: string, ns: string, pod': string, after: string)
    requires '_' !in pod && '_' !in pod' && '/' !in after
    ensures Matches(PodPattern(pod, ns), "checkpoint-" + pod' + "_" + after) <==>
            pod == pod' && CatchesTail(ns, after)
  {
    var s := "checkpoint-" + pod' + "_" + after;
    var w := "checkpoint-" + (pod + "_" + (ns + "-"));
    assert w == "checkpoint-" + pod + "_" + ns + "-";
    assert s == "checkpoint-" + (pod' + "_" + after);
    MatchLitHead(w, DashTail(), s);
    PrefixCancel("checkpoint-", pod + "_" + (ns + "-"), pod' + "_" + after);
    SplitAtUnderscore(pod, ns + "-", pod', after);
    DashTailExact(ns, after);
    if pod == pod' && ns + "-" <= after {
      assert s == ("checkpoint-" + pod + "_") + after;
      assert s[|w|..] == after[|ns| + 1..];
    }
  }

  /** The namespace scope: as the pod scope, for every pod. */
  lemma NamespaceGlobExact(ns: string, pod': string, ns': string, container': string, ts: string)
    requires IsName(ns)
    requires IsName(pod') && IsName(ns') && IsName(container') && IsTimestamp(ts)
    ensures Matches(NamespacePattern(ns), KubeletName(pod', ns', container', ts)) <==>
            CatchesTail(ns, AfterPod(ns', container', ts))
  {
    var after := AfterPod(ns', container', ts);
    AfterPodChars(ns', container', ts);
    assert '_' !in pod' && '/' !in pod' by { assert !NameChar('_') && !NameChar('/'); }
    var s := KubeletName(pod', ns', container', ts);
    var s1 := pod' + "_" + after;
    assert s == "checkpoint-" + s1;
    var rest := Lits("_" + ns + "-") + DashTail();
    MatchLitHead("checkpoint-", [Star] + rest, s);
    assert s[11..] == s1;
    MatchStar(rest, s1);
    forall k | 0 <= k <= |s1|
      ensures Matches(rest, s1[k..]) <==> k == |pod'| && CatchesTail(ns, after)
    {
      UnderscoreHead(ns, pod', after, k);
    }
    assert CatchesTail(ns, after) ==> Matches(rest, s1[|pod'|..]);
    assert '/' !in s1;
  }

  lemma UnderscoreHead(ns: string, pod': string, after: string, k: nat)
    requires '_' !in pod' && '_' !in after && '/' !in after && k <= |pod' + "_" + after|
    ensures Matches(Lits("_" + ns + "-") + DashTail(), (pod' + "_" + after)[k..]) <==>
            k == |pod'| && CatchesTail(ns, after)
  {
    var s1 := pod' + "_" + after;
    var w := "_" + ns + "-";
    MatchLitHead(w, DashTail(), s1[k..]);
    if w <= s1[k..] {
      assert s1[k] == w[0] == '_';
      FirstUnderscore(pod', after);
      assert s1[|pod'| + 1..] == after;
      assert forall i :: |pod'| < i < |s1| ==> s1[i] == after[i - |pod'| - 1] && s1[i] in after;
    }
    if k == |pod'| {
      assert s1[k..] == "_" + after;
      assert w == "_" + (ns + "-");
      PrefixCancel("_", ns + "-", after);
      DashTailExact(ns, after);
      if ns + "-" <= after { assert ("_" + after)[|w|..] == after[|ns| + 1..]; }
    }
  }

  // ---------- the file-name namespace check of PodRestore ----------

  /** Position of the first c in s, or |s|. */
  function FirstIndex(s: string, c: char): (k: nat)
    ensures k <= |s| && (k < |s| ==> s[k] == c) && forall i :: 0 <= i < k ==> s[i] != c
  {
    if s == [] then 0
    else if s[0] == c then 0
    else
      var k := FirstIndex(s[1..], c);
      assert forall i :: 1 <= i < k + 1 ==> s[i] == s[1..][i - 1];
      k + 1
  }

  /** ValidateCheckpointNamespaceHint on the last element of the path. */
  predicate NamespaceHintOk(base: string, ns: string) {
    "checkpoint-" <= base &&
    var rest := base[11..];
    var k := FirstIndex(rest, '_');
    k < |rest| && ns + "-" <= rest[k + 1..]
  }

  predicate HintForm(base: string, pod: string, ns: string, rest: string) {
    '_' !in pod && base == "checkpoint-" + (pod + "_" + (ns + "-" + rest))
  }

  /** The check accepts exactly the names "checkpoint-<pod>_<namespace>-<rest>". */
  lemma HintExactly(base: string, ns: string)
    ensures NamespaceHintOk(base, ns) <==> exists pod, rest :: HintForm(base, pod, ns, rest)
  {
    if NamespaceHintOk(base, ns) {
      var tail := base[11..];
      var k := FirstIndex(tail, '_');
      var after := tail[k + 1..];
      assert after == ns + "-" + after[|ns| + 1..];
      assert tail == tail[..k] + "_" + after;
      assert HintForm(base, tail[..k], ns, after[|ns| + 1..]);
    }
    if pod, rest :| HintForm(base, pod, ns, rest) {
      var after := ns + "-" + rest;
      assert base[11..] == pod + "_" + after;
      FirstUnderscore(pod, after);
      assert FirstIndex(base[11..], '_') == |pod|;
      assert (pod + "_" + after)[|pod| + 1..] == after;
    }
  }

  /** On a kubelet name the check compares the wanted "<namespace>-" with what follows the pod. */
  lemma HintOnKubeletName(pod: string, ns': string, container': string, ts: string, ns: string)
    requires IsName(pod)
    ensures NamespaceHintOk(KubeletName(pod, ns', container', ts), ns) <==>
            ns + "-" <= AfterPod(ns', container', ts)
  {
    var after := AfterPod(ns', container', ts);
    var base := KubeletName(pod, ns', container', ts);
    assert base == "checkpoint-" + (pod + "_" + after);
    var rest := base[11..];
    assert rest == pod + "_" + after;
    assert '_' !in pod by { assert !NameChar('_'); }
    FirstUnderscore(pod, after);
    var k := FirstIndex(rest, '_');
    assert k == |pod|;
    assert rest[k + 1..] == after;
  }

  predicate DashExtends(longer: string, shorter: string) {
    |longer| > |shorter| + 1 && shorter + "-" <= longer
  }

  /** The check accepts the archive's own namespace, and a foreign one only if one of the two
      names is the other followed by "-" and more. */
  lemma HintAcceptsOwnAndDashNeighbours(pod: string, ns': string, container': string, ts: string, ns: string)
    requires IsName(pod) && IsName(ns') && IsName(ns) && IsName(container')
    ensures NamespaceHintOk(KubeletName(pod, ns', container', ts), ns')
    ensures NamespaceHintOk(KubeletName(pod, ns', container', ts), ns) && ns != ns' ==>
            DashExtends(ns, ns') || DashExtends(ns', ns)
  {
    HintOnKubeletName(pod, ns', container', ts, ns);
    HintOnKubeletName(pod, ns', container', ts, ns');
    var after := AfterPod(ns', container', ts);
    assert after == (ns' + "-") + (container' + "-" + ts + ".tar");
    if ns + "-" <= after && ns != ns' { DashPrefixes(ns, ns', after); }
  }

  /** Two names that both start a string, each followed by a dash, are dash neighbours. */
  lemma DashPrefixes(x: string, y: string, s: string)
    requires IsName(x) && IsName(y) && x + "-" <= s && y + "-" <= s && x != y
    ensures DashExtends(x, y) || DashExtends(y, x)
  {
    assert s[..|x| + 1] == x + "-" && s[..|y| + 1] == y + "-";
    assert x == s[..|x|] && y == s[..|y|];
    if |x| < |y| {
      assert y[..|x| + 1] == s[..|x| + 1];
    } else {
      assert x[..|y| + 1] == s[..|y| + 1];
    }
  }

  /** Both kinds of neighbour are really accepted: a wanted name the archive's extends, and a wanted
      name that swallows the archive's container. */
  lemma HintConfusesDashedNamespaces(pod: string, a: string, b: string, c: string, ts: string)
    requires IsName(pod)
    ensures NamespaceHintOk(KubeletName(pod, a + "-" + b, c, ts), a)
    ensures NamespaceHintOk(KubeletName(pod, a, b, ts), a + "-" + b)
  {
    HintOnKubeletName(pod, a + "-" + b, c, ts, a);
    HintOnKubeletName(pod, a, b, ts, a + "-" + b);
    AfterPodStarts(a, b, c, ts);
  }

  lemma AfterPodStarts(a: string, b: string, c: string, ts: string)
    ensures a + "-" <= AfterPod(a + "-" + b, c, ts)
    ensures a + "-" + b + "-" <= AfterPod(a, b, ts)
  {
    assert AfterPod(a + "-" + b, c, ts) == (a + "-") + (b + "-" + c + "-" + ts + ".tar");
    assert AfterPod(a, b, ts) == (a + "-" + b + "-") + (ts + ".tar");
  }

  // ---------- namespaces without a dash ----------

  /** Among dash-free namespaces the namespace part of a file name is unambiguous. */
  lemma DashFreePrefix(ns: string, ns': string, tail: string)
    requires '-' !in ns && '-' !in ns'
    ensures ns + "-" <= ns' + "-" + tail <==> ns == ns'
  {
    var s := ns' + "-" + tail;
    if ns + "-" <= s {
      assert (ns + "-")[|ns|] == '-' && s[|ns'|] == '-';
      assert forall i :: 0 <= i < |ns| ==> (ns + "-")[i] == ns[i] && ns[i] in ns;
      assert forall i :: 0 <= i < |ns'| ==> s[i] == ns'[i] && ns'[i] in ns';
      assert |ns| == |ns'|;
      assert ns == (ns + "-")[..|ns|] == s[..|ns|] == ns';
    }
  }

  lemma DashFreeKey(ns: string, c: string, ns': string, c': string)
    requires '-' !in ns && '-' !in ns'
    ensures ScopeKey(ns, c) == ScopeKey(ns', c') <==> ns == ns' && c == c'
  {
    if ScopeKey(ns, c) == ScopeKey(ns', c') {
      assert ns + "-" <= ScopeKey(ns, c);
      assert ScopeKey(ns', c') == ns' + "-" + c';
      DashFreePrefix(ns, ns', c');
      assert c == ScopeKey(ns, c)[|ns| + 1..];
      assert c' == ScopeKey(ns', c')[|ns'| + 1..];
    }
  }

  /** For dash-free namespaces, the tail of the pod and namespace patterns is namespace equality. */
  lemma DashFreeTail(ns: string, ns': string, container': string, ts: string)
    requires '-' !in ns && '-' !in ns' && IsName(container') && IsTimestamp(ts)
    ensures CatchesTail(ns, AfterPod(ns', container', ts)) <==> ns == ns'
  {
    var after := AfterPod(ns', container', ts);
    var more := container' + "-" + ts + ".tar";
    assert after == ns' + "-" + more;
    DashFreePrefix(ns, ns', more);
    if ns == ns' {
      assert after[|ns| + 1..] == more;
      assert more[|more| - 4..] == ".tar";
      assert after[|ns| + 1..|after| - 4] == container' + "-" + ts;
      assert (container' + "-" + ts)[|container'|] == '-';
    }
  }
}
