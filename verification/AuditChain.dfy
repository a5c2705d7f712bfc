/** The browser's replay of the audit log's hash chain. */
module AuditChain {
  import opened Text
  import opened Wrappers

  /** One log record; the four optional fields may be null. */
  datatype Record = Record(
    index: nat, timestamp: string, hash: string, codeLength: nat,
    outcome: Option<string>, promptHash: Option<string>, responseHash: Option<string>,
    modelFingerprint: Option<string>,
    prevHash: string, recordHash: string)

  const GENESIS := "GENESIS"
  const NUL: char := '\0'

  type Hash = string -> string

  /** What is assumed of the digest: injective, never "GENESIS", and written without NUL. */
  ghost predicate IsDigest(h: Hash) {
    && (forall a, b {:trigger h(a), h(b)} :: h(a) == h(b) ==> a == b)
    && (forall a {:trigger h(a)} :: h(a) != GENESIS && NUL !in h(a))
  }

  // ── The hashed text of a record ─────────────────────────────────────────

  function Present(o: Option<string>): seq<string> {
    if o.Some? then [o.value] else []
  }

  /** The optional fields that are not null, in their fixed order. */
  function OptionalParts(r: Record): seq<string> {
    Present(r.outcome) + Present(r.promptHash) + Present(r.responseHash) + Present(r.modelFingerprint)
  }

  function Parts(r: Record): seq<string> {
    [Decimal(r.index), r.timestamp, r.hash, Decimal(r.codeLength)] + OptionalParts(r)
  }

  /** Every part followed by a NUL, then the link. */
  function Joined(parts: seq<string>, prev: string): string {
    if parts == [] then prev else parts[0] + [NUL] + Joined(parts[1..], prev)
  }

  function Encoding(r: Record): string {
    Joined(Parts(r), r.prevHash)
  }

  /** The source's recordHash: optional fields are pushed one by one when present. */
  method RecordHash(h: Hash, r: Record) returns (d: string)
    ensures d == h(Encoding(r))
  {
    var parts := [Decimal(r.index), r.timestamp, r.hash, Decimal(r.codeLength)];
    var optional := [r.outcome, r.promptHash, r.responseHash, r.modelFingerprint];
    for i := 0 to 4
      invariant parts == [Decimal(r.index), r.timestamp, r.hash, Decimal(r.codeLength)]
                       + (if i > 0 then Present(r.outcome) else [])
                       + (if i > 1 then Present(r.promptHash) else [])
                       + (if i > 2 then Present(r.responseHash) else [])
                       + (if i > 3 then Present(r.modelFingerprint) else [])
    {
      if optional[i].Some? {
        parts := parts + [optional[i].value];
      }
    }
    assert parts == Parts(r);
    d := h(Joined(parts, r.prevHash));
  }

  predicate NulFreeParts(parts: seq<string>) {
    forall p <- parts :: NUL !in p
  }

  /** The fields hold no NUL byte. */
  predicate NulFree(r: Record) {
    && NUL !in r.timestamp && NUL !in r.hash
    && NulFreeParts(OptionalParts(r))
  }

  lemma PartsAreNulFree(r: Record)
    requires NulFree(r)
    ensures NulFreeParts(Parts(r))
  {
    forall p <- Parts(r) ensures NUL !in p {
      if p !in OptionalParts(r) {
        assert p in [Decimal(r.index), r.timestamp, r.hash, Decimal(r.codeLength)];
      }
    }
  }

  lemma FirstNulSplits(a: string, b: string, x: string, y: string)
    requires NUL !in a && NUL !in b && a + [NUL] + x == b + [NUL] + y
    ensures a == b && x == y
  {
    var s := a + [NUL] + x;
    assert s[|a|] == NUL && s[|b|] == NUL;
    assert forall i | 0 <= i < |a| :: s[i] == a[i];
    assert forall i | 0 <= i < |b| :: s[i] == b[i];
    assert a == s[..|a|] && b == s[..|b|];
    assert x == s[|a| + 1..] && y == s[|b| + 1..];
  }

  /** With NUL-free parts and a NUL-free link the text determines both. */
  lemma {:induction false} JoinedInjective(a: seq<string>, x: string, b: seq<string>, y: string)
    requires NulFreeParts(a) && NulFreeParts(b) && NUL !in x && NUL !in y
    requires Joined(a, x) == Joined(b, y)
    ensures a == b && x == y
  {
    NulInJoined(a, x);
    NulInJoined(b, y);
    if a != [] {
      FirstNulSplits(a[0], b[0], Joined(a[1..], x), Joined(b[1..], y));
      JoinedInjective(a[1..], x, b[1..], y);
      assert a == [a[0]] + a[1..] && b == [b[0]] + b[1..];
    }
  }

  lemma NulInJoined(parts: seq<string>, prev: string)
    ensures parts != [] ==> NUL in Joined(parts, prev)
  {
    if parts != [] {
      assert Joined(parts, prev)[|parts[0]|] == NUL;
    }
  }

  /** Which optional fields are present. */
  function Shape(r: Record): (bool, bool, bool, bool) {
    (r.outcome.Some?, r.promptHash.Some?, r.responseHash.Some?, r.modelFingerprint.Some?)
  }

  /** The hashed part of a record: everything but the recorded hash. */
  function Content(r: Record): Record {
    r.(recordHash := "")
  }

  /**
    What one hash pins down: two NUL-free records with the same text agree on the mandatory
    fields, on the link and on the list of present optional values. They are the same record
    (up to the recorded hash) exactly when the same optional fields are present.
   */
  lemma EncodingDetermines(r: Record, q: Record)
    requires NulFree(r) && NulFree(q) && NUL !in r.prevHash && NUL !in q.prevHash
    requires Encoding(r) == Encoding(q)
    ensures r.index == q.index && r.timestamp == q.timestamp && r.hash == q.hash
    ensures r.codeLength == q.codeLength && r.prevHash == q.prevHash
    ensures OptionalParts(r) == OptionalParts(q)
    ensures Content(r) == Content(q) <==> Shape(r) == Shape(q)
  {
    PartsAreNulFree(r);
    PartsAreNulFree(q);
    JoinedInjective(Parts(r), r.prevHash, Parts(q), q.prevHash);
    var a, b := Parts(r), Parts(q);
    assert a[0] == b[0] && a[1] == b[1] && a[2] == b[2] && a[3] == b[3];
    DecimalInjective(r.index, q.index);
    DecimalInjective(r.codeLength, q.codeLength);
    assert a[4..] == OptionalParts(r) && b[4..] == OptionalParts(q);
    if Shape(r) == Shape(q) {
      SameShapeSameFields(r, q);
    }
  }

  /** Two lists that start with an optional value present in both or in neither: the values and the rests are the same. */
  lemma FirstOptional(o: Option<string>, a: seq<string>, p: Option<string>, b: seq<string>)
    requires o.Some? == p.Some? && Present(o) + a == Present(p) + b
    ensures o == p && a == b
  {
    var n := |Present(o)|;
    assert (Present(o) + a)[..n] == Present(o) && (Present(p) + b)[..n] == Present(p);
    assert (Present(o) + a)[n..] == a && (Present(p) + b)[n..] == b;
    PresentInjective(o, p);
  }

  lemma OptionalPartsNest(r: Record)
    ensures OptionalParts(r)
         == Present(r.outcome) + (Present(r.promptHash) + (Present(r.responseHash) + (Present(r.modelFingerprint) + [])))
  {
    hide Present;
  }

  lemma SameShapeSameFields(r: Record, q: Record)
    requires Shape(r) == Shape(q) && OptionalParts(r) == OptionalParts(q)
    ensures r.outcome == q.outcome && r.promptHash == q.promptHash
    ensures r.responseHash == q.responseHash && r.modelFingerprint == q.modelFingerprint
  {
    hide Present, OptionalParts;
    OptionalPartsNest(r);
    OptionalPartsNest(q);
    var (d, h) := (Present(r.modelFingerprint) + [], Present(q.modelFingerprint) + []);
    var (c, g) := (Present(r.responseHash) + d, Present(q.responseHash) + h);
    var (b, f) := (Present(r.promptHash) + c, Present(q.promptHash) + g);
    FirstOptional(r.outcome, b, q.outcome, f);
    FirstOptional(r.promptHash, c, q.promptHash, g);
    FirstOptional(r.responseHash, d, q.responseHash, h);
    FirstOptional(r.modelFingerprint, [], q.modelFingerprint, []);
  }

  lemma PresentInjective(a: Option<string>, b: Option<string>)
    requires Present(a) == Present(b)
    ensures a == b
  {
    if a.Some? && b.Some? {
      assert Present(a)[0] == a.value && Present(b)[0] == b.value;
    }
  }

  /** A value moved from one null-skipped field to the next leaves the hash unchanged. */
  lemma MovedFieldKeepsTheHash(v: string)
    ensures var r := Record(0, "t", "h", 1, Some(v), None, None, None, GENESIS, "");
            var q := r.(outcome := None, promptHash := Some(v));
            r != q && Encoding(r) == Encoding(q)
  {
    var r := Record(0, "t", "h", 1, Some(v), None, None, None, GENESIS, "");
    var q := r.(outcome := None, promptHash := Some(v));
    assert OptionalParts(r) == [v] == OptionalParts(q);
  }

  // ── Replaying the chain ─────────────────────────────────────────────────

  datatype Reason = Link | Digest

  datatype Break = Break(position: nat, index: nat, reason: Reason)

  /** The link record i has to carry. */
  function Expected(log: seq<Record>, i: nat): string
    requires i <= |log|
  {
    if i == 0 then GENESIS else log[i - 1].recordHash
  }

  ghost predicate LinkHolds(log: seq<Record>, i: nat)
    requires i < |log|
  {
    log[i].prevHash == Expected(log, i)
  }

  ghost predicate DigestHolds(h: Hash, log: seq<Record>, i: nat)
    requires i < |log|
  {
    h(Encoding(log[i])) == log[i].recordHash
  }

  ghost predicate Good(h: Hash, log: seq<Record>, i: nat)
    requires i < |log|
  {
    LinkHolds(log, i) && DigestHolds(h, log, i)
  }

  ghost predicate Intact(h: Hash, log: seq<Record>) {
    forall i | 0 <= i < |log| :: Good(h, log, i)
  }

  /** `b` names the least bad position, and says 'link' whenever the link is wrong. */
  ghost predicate IsFirstBreak(h: Hash, log: seq<Record>, b: Break) {
    && b.position < |log| && b.index == log[b.position].index
    && (forall i | 0 <= i < b.position :: Good(h, log, i))
    && (b.reason == Link <==> !LinkHolds(log, b.position))
    && (b.reason == Digest ==> !DigestHolds(h, log, b.position))
  }

  method FindFirstBreak(h: Hash, log: seq<Record>) returns (b: Option<Break>)
    ensures b.None? <==> Intact(h, log)
    ensures b.Some? ==> IsFirstBreak(h, log, b.value)
  {
    var prev := GENESIS;
    for i := 0 to |log|
      invariant prev == Expected(log, i)
      invariant forall j | 0 <= j < i :: Good(h, log, j)
    {
      if log[i].prevHash != prev {
        assert !Good(h, log, i);
        return Some(Break(i, log[i].index, Link));
      }
      var d := RecordHash(h, log[i]);
      if d != log[i].recordHash {
        assert !Good(h, log, i);
        return Some(Break(i, log[i].index, Digest));
      }
      prev := log[i].recordHash;
    }
    b := None;
  }

  /** The first break is unique, so the contract above fixes the answer. */
  lemma FirstBreakIsUnique(h: Hash, log: seq<Record>, b: Break, c: Break)
    requires IsFirstBreak(h, log, b) && IsFirstBreak(h, log, c)
    ensures b == c
  {
    assert !Good(h, log, b.position) && !Good(h, log, c.position);
  }

  ghost predicate NulFreeLog(log: seq<Record>) {
    forall r <- log :: NulFree(r)
  }

  lemma LinksAreNulFree(h: Hash, log: seq<Record>, i: nat)
    requires IsDigest(h) && Intact(h, log) && i < |log|
    ensures NUL !in log[i].prevHash
  {
    assert Good(h, log, i);
    if i > 0 {
      assert Good(h, log, i - 1);
    }
  }

  lemma HashFixesRecord(h: Hash, a: seq<Record>, m: nat, b: seq<Record>, n: nat)
    requires IsDigest(h) && Intact(h, a) && Intact(h, b) && NulFreeLog(a) && NulFreeLog(b)
    requires m < |a| && n < |b| && a[m].recordHash == b[n].recordHash
    ensures Parts(a[m]) == Parts(b[n]) && a[m].prevHash == b[n].prevHash
  {
    assert Good(h, a, m) && Good(h, b, n);
    LinksAreNulFree(h, a, m);
    LinksAreNulFree(h, b, n);
    PartsAreNulFree(a[m]);
    PartsAreNulFree(b[n]);
    JoinedInjective(Parts(a[m]), a[m].prevHash, Parts(b[n]), b[n].prevHash);
  }

  ghost predicate SameHashed(a: Record, b: Record) {
    Parts(a) == Parts(b) && a.prevHash == b.prevHash && a.recordHash == b.recordHash
  }

  lemma {:induction false} HashFixesHistory(h: Hash, a: seq<Record>, m: nat, b: seq<Record>, n: nat)
    requires IsDigest(h) && Intact(h, a) && Intact(h, b) && NulFreeLog(a) && NulFreeLog(b)
    requires m < |a| && n < |b| && a[m].recordHash == b[n].recordHash
    ensures m == n && forall i | 0 <= i <= m :: SameHashed(a[i], b[i])
    decreases m
  {
    hide Encoding, Parts, NulFreeLog;
    HashFixesRecord(h, a, m, b, n);
    assert Good(h, a, m) && Good(h, b, n);
    assert m > 0 ==> Good(h, a, m - 1);
    assert n > 0 ==> Good(h, b, n - 1);
    if m > 0 {
      HashFixesHistory(h, a, m - 1, b, n - 1);
    }
  }

  /**
    The head fixes the log: two intact non-empty logs with the same last record hash have the
    same length, and record by record the same hashed parts, the same link and the same hash.
   */
  lemma HeadFixesLog(h: Hash, a: seq<Record>, b: seq<Record>)
    requires IsDigest(h) && Intact(h, a) && Intact(h, b) && NulFreeLog(a) && NulFreeLog(b)
    requires a != [] && b != [] && a[|a| - 1].recordHash == b[|b| - 1].recordHash
    ensures |a| == |b| && forall i | 0 <= i < |a| :: SameHashed(a[i], b[i])
  {
    HashFixesHistory(h, a, |a| - 1, b, |b| - 1);
  }

  /** Cutting records off the end is the one change the replay cannot see. */
  lemma PrefixIsIntact(h: Hash, log: seq<Record>, n: nat)
    requires Intact(h, log) && n <= |log|
    ensures Intact(h, log[..n])
  {
    forall i | 0 <= i < n ensures Good(h, log[..n], i) {
      assert Good(h, log, i);
      assert Expected(log[..n], i) == Expected(log, i);
    }
  }

  /** In an intact log no hash occurs twice, and none is the genesis link. */
  lemma HashesAreDistinct(h: Hash, log: seq<Record>, i: nat, j: nat)
    requires IsDigest(h) && Intact(h, log) && NulFreeLog(log) && i < j <= |log|
    ensures Expected(log, i) != Expected(log, j)
  {
    assert Good(h, log, j - 1);
    if i > 0 && Expected(log, i) == Expected(log, j) {
      HashFixesHistory(h, log, i - 1, log, j - 1);
    }
  }

  // ── Tampering with an intact log ────────────────────────────────────────

  /** Editing the hashed parts of one record is found there, as a wrong hash. */
  lemma EditIsFound(h: Hash, log: seq<Record>, i: nat, r: Record)
    requires IsDigest(h) && Intact(h, log) && NulFreeLog(log) && NulFree(r) && i < |log|
    requires Parts(r) != Parts(log[i]) && r.prevHash == log[i].prevHash && r.recordHash == log[i].recordHash
    ensures IsFirstBreak(h, log[i := r], Break(i, r.index, Digest))
  {
    var t := log[i := r];
    forall k | 0 <= k < i ensures Good(h, t, k) {
      assert Good(h, log, k);
    }
    assert Good(h, log, i);
    LinksAreNulFree(h, log, i);
    PartsAreNulFree(r);
    PartsAreNulFree(log[i]);
    if Encoding(r) == Encoding(log[i]) {
      JoinedInjective(Parts(r), r.prevHash, Parts(log[i]), log[i].prevHash);
    }
  }

  /** Rewriting the recorded hash as well moves the break to the successor's link. */
  lemma RehashedEditIsFound(h: Hash, log: seq<Record>, i: nat, r: Record)
    requires IsDigest(h) && Intact(h, log) && NulFreeLog(log) && NulFree(r) && i + 1 < |log|
    requires Parts(r) != Parts(log[i]) && r.prevHash == log[i].prevHash && r.recordHash == h(Encoding(r))
    ensures IsFirstBreak(h, log[i := r], Break(i + 1, log[i + 1].index, Link))
  {
    var t := log[i := r];
    forall k | 0 <= k < i ensures Good(h, t, k) {
      assert Good(h, log, k);
    }
    assert Good(h, log, i) && Good(h, log, i + 1);
    LinksAreNulFree(h, log, i);
    PartsAreNulFree(r);
    PartsAreNulFree(log[i]);
    if r.recordHash == log[i].recordHash {
      JoinedInjective(Parts(r), r.prevHash, Parts(log[i]), log[i].prevHash);
    }
    assert Good(h, t, i);
  }

  function Without(log: seq<Record>, i: nat): seq<Record>
    requires i < |log|
  {
    log[..i] + log[i + 1..]
  }

  /** Deleting a record is found at its place as a wrong link, unless it was the last one. */
  lemma DeletionIsFound(h: Hash, log: seq<Record>, i: nat)
    requires IsDigest(h) && Intact(h, log) && NulFreeLog(log) && i < |log|
    ensures i + 1 < |log| ==> IsFirstBreak(h, Without(log, i), Break(i, log[i + 1].index, Link))
    ensures Intact(h, Without(log, i)) <==> i + 1 == |log|
  {
    var t := Without(log, i);
    PrefixIsIntact(h, log, i);
    if i + 1 < |log| {
      assert t[i] == log[i + 1] && Good(h, log, i + 1);
      forall k | 0 <= k < i ensures Good(h, t, k) {
        assert Good(h, log, k);
      }
      assert Expected(t, i) == Expected(log, i);
      HashesAreDistinct(h, log, i, i + 1);
      assert !Good(h, t, i);
    } else {
      assert t == log[..i];
    }
  }

  /** Swapping two neighbours is found at the first of them as a wrong link. */
  lemma SwapIsFound(h: Hash, log: seq<Record>, i: nat)
    requires IsDigest(h) && Intact(h, log) && NulFreeLog(log) && i + 1 < |log|
    ensures IsFirstBreak(h, log[i := log[i + 1]][i + 1 := log[i]], Break(i, log[i + 1].index, Link))
  {
    var t := log[i := log[i + 1]][i + 1 := log[i]];
    forall k | 0 <= k < i ensures Good(h, t, k) {
      assert Good(h, log, k);
      assert Expected(t, k) == Expected(log, k);
    }
    assert Good(h, log, i + 1);
    assert Expected(t, i) == Expected(log, i);
    HashesAreDistinct(h, log, i, i + 1);
  }

  // ── Any selection of records ────────────────────────────────────────────

  predicate InLog(at: seq<nat>, log: seq<Record>) {
    forall i | 0 <= i < |at| :: at[i] < |log|
  }

  /** The records at the given positions: deletions, repetitions and rearrangements in any combination. */
  function Selection(log: seq<Record>, at: seq<nat>): (t: seq<Record>)
    requires InLog(at, log)
    ensures |t| == |at| && forall i | 0 <= i < |at| :: t[i] == log[at[i]]
  {
    seq(|at|, i requires 0 <= i < |at| => log[at[i]])
  }

  /** The first record out of place is where the replay stops, on its link. */
  lemma MisplacedIsFound(h: Hash, log: seq<Record>, at: seq<nat>, i: nat)
    requires IsDigest(h) && Intact(h, log) && NulFreeLog(log) && InLog(at, log)
    requires i < |at| && at[i] != i && forall k | 0 <= k < i :: at[k] == k
    ensures IsFirstBreak(h, Selection(log, at), Break(i, log[at[i]].index, Link))
  {
    hide DigestHolds, NulFreeLog, IsDigest, Intact;
    var t := Selection(log, at);
    SelectedPrefixIsGood(h, log, at, i);
    assert Expected(t, i) == Expected(log, i);
    LinkIsExpected(h, log, at[i]);
    if at[i] < i {
      HashesAreDistinct(h, log, at[i], i);
    } else {
      HashesAreDistinct(h, log, i, at[i]);
    }
  }

  lemma LinkIsExpected(h: Hash, log: seq<Record>, i: nat)
    ensures Intact(h, log) && i < |log| ==> log[i].prevHash == Expected(log, i)
  {
    assert i < |log| && Intact(h, log) ==> Good(h, log, i);
  }

  lemma SelectedPrefixIsGood(h: Hash, log: seq<Record>, at: seq<nat>, n: nat)
    requires Intact(h, log) && InLog(at, log) && n <= |at| && forall k | 0 <= k < n :: at[k] == k
    ensures forall k | 0 <= k < n :: Good(h, Selection(log, at), k)
    ensures n <= |log|
  {
    var t := Selection(log, at);
    forall k | 0 <= k < n ensures Good(h, t, k) && k < |log| {
      assert at[k] == k < |log|;
      assert Good(h, log, k);
      assert Expected(t, k) == Expected(log, k);
    }
    assert n > 0 ==> at[n - 1] == n - 1;
  }

  lemma FirstMisplaced(at: seq<nat>) returns (i: nat)
    requires exists k :: 0 <= k < |at| && at[k] != k
    ensures i < |at| && at[i] != i && forall k | 0 <= k < i :: at[k] == k
  {
    i := 0;
    while at[i] == i
      invariant i < |at| && forall k | 0 <= k < i :: at[k] == k
      invariant exists k :: i <= k < |at| && at[k] != k
      decreases |at| - i
    {
      i := i + 1;
    }
  }

  /** A selection of records of an intact log is intact if and only if it is a prefix of the log. */
  lemma OnlyPrefixesAreIntact(h: Hash, log: seq<Record>, at: seq<nat>)
    requires IsDigest(h) && Intact(h, log) && NulFreeLog(log) && InLog(at, log)
    ensures Intact(h, Selection(log, at)) <==> forall i | 0 <= i < |at| :: at[i] == i
    ensures (forall i | 0 <= i < |at| :: at[i] == i) ==> Selection(log, at) <= log
  {
    hide Good, IsDigest, NulFreeLog;
    if forall i | 0 <= i < |at| :: at[i] == i {
      SelectedPrefixIsGood(h, log, at, |at|);
      assert Selection(log, at) == log[..|at|];
      PrefixIsIntact(h, log, |at|);
    } else {
      var i := FirstMisplaced(at);
      MisplacedIsFound(h, log, at, i);
      BreakIsNotIntact(h, Selection(log, at), Break(i, log[at[i]].index, Link));
    }
  }

  lemma BreakIsNotIntact(h: Hash, log: seq<Record>, b: Break)
    ensures IsFirstBreak(h, log, b) ==> !Intact(h, log)
  {
    if IsFirstBreak(h, log, b) {
      assert !Good(h, log, b.position);
    }
  }
}
