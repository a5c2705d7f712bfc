/** The server that writes the audit log, on its own terms, and the browser's replay of what it wrote. */
module AuditWriter {
  import opened AuditChain
  import opened Text
  import opened Wrappers

  // ── compute_record_hash ─────────────────────────────────────────────────

  /** A running digest: the text fed to it so far. */
  class Hasher {
    var fed: string

    constructor ()
      ensures fed == ""
    {
      fed := "";
    }

    method Update(text: string)
      modifies this
      ensures fed == old(fed) + text
    {
      fed := fed + text;
    }

    /** A field and the zero byte after it. */
    method Feed(text: string)
      modifies this
      ensures fed == old(fed) + text + [NUL]
    {
      Update(text);
      Update([NUL]);
    }

    method FeedPresent(o: Option<string>)
      modifies this
      ensures fed == old(fed) + Fed(o)
    {
      if o.Some? {
        Feed(o.value);
        assert old(fed) + o.value + [NUL] == old(fed) + (o.value + [NUL]);
      }
    }
  }

  /** What an optional field adds to the digest. */
  function Fed(o: Option<string>): string {
    if o.Some? then o.value + [NUL] else ""
  }

  /** The bytes the server hashes, in the order it feeds them. */
  function ServerText(r: Record): string {
    Decimal(r.index) + [NUL] + r.timestamp + [NUL] + r.hash + [NUL] + Decimal(r.codeLength) + [NUL]
    + Fed(r.outcome) + Fed(r.promptHash) + Fed(r.responseHash) + Fed(r.modelFingerprint) + r.prevHash
  }

  method ComputeRecordHash(h: Hash, r: Record) returns (d: string)
    ensures d == h(ServerText(r))
  {
    hide Fed, Decimal;
    var hasher := new Hasher();
    hasher.Feed(Decimal(r.index));
    assert "" + Decimal(r.index) == Decimal(r.index);
    hasher.Feed(r.timestamp);
    hasher.Feed(r.hash);
    hasher.Feed(Decimal(r.codeLength));
    hasher.FeedPresent(r.outcome);
    hasher.FeedPresent(r.promptHash);
    hasher.FeedPresent(r.responseHash);
    hasher.FeedPresent(r.modelFingerprint);
    hasher.Update(r.prevHash);
    d := h(hasher.fed);
  }

  lemma JoinedOptional(o: Option<string>, rest: seq<string>, prev: string)
    ensures Joined(Present(o) + rest, prev) == Fed(o) + Joined(rest, prev)
  {
    if o.Some? {
      assert (Present(o) + rest)[1..] == rest;
    } else {
      assert Present(o) + rest == rest;
    }
  }

  lemma JoinedOne(p: string, rest: seq<string>, prev: string)
    ensures Joined([p] + rest, prev) == p + [NUL] + Joined(rest, prev)
  {
    assert ([p] + rest)[1..] == rest;
  }

  lemma OptionalText(r: Record)
    ensures Joined(OptionalParts(r), r.prevHash)
         == Fed(r.outcome) + Fed(r.promptHash) + Fed(r.responseHash) + Fed(r.modelFingerprint) + r.prevHash
  {
    hide Joined, Present, Fed;
    var d := Present(r.modelFingerprint);
    var c := Present(r.responseHash) + d;
    var b := Present(r.promptHash) + c;
    assert OptionalParts(r) == Present(r.outcome) + b;
    JoinedOptional(r.outcome, b, r.prevHash);
    JoinedOptional(r.promptHash, c, r.prevHash);
    JoinedOptional(r.responseHash, d, r.prevHash);
    assert d + [] == d;
    JoinedOptional(r.modelFingerprint, [], r.prevHash);
    assert Joined([], r.prevHash) == r.prevHash by { JoinedNone(r.prevHash); }
  }

  lemma JoinedNone(prev: string)
    ensures Joined([], prev) == prev
  {
  }

  /** The browser hashes exactly the bytes the server does, for every record. */
  lemma BrowserTextIsServerText(r: Record)
    ensures Encoding(r) == ServerText(r)
  {
    hide Joined, OptionalParts, Fed, Decimal;
    var (index, length) := (Decimal(r.index), Decimal(r.codeLength));
    var o := OptionalParts(r);
    assert Parts(r) == [index] + ([r.timestamp] + ([r.hash] + ([length] + o)));
    JoinedOne(index, [r.timestamp] + ([r.hash] + ([length] + o)), r.prevHash);
    JoinedOne(r.timestamp, [r.hash] + ([length] + o), r.prevHash);
    JoinedOne(r.hash, [length] + o, r.prevHash);
    JoinedOne(length, o, r.prevHash);
    OptionalText(r);
  }

  // ── append_to_path and verify_chain ─────────────────────────────────────

  /** What one append is given: the code as bytes, and what evidence there is. */
  datatype Draft = Draft(
    timestamp: string, code: string, outcome: Option<string>, prompt: Option<string>, response: Option<string>,
    modelFingerprint: Option<string>)

  /** Both hashes of an inference call, or neither. */
  function Paired(a: Option<string>, b: Option<string>): Option<string> {
    if a.Some? && b.Some? then a else None
  }

  /** The record an append adds to a log: numbered, linked to the last one, and hashed. */
  function Written(h: Hash, log: seq<Record>, d: Draft): Record {
    var r := Record(|log|, d.timestamp, h(d.code), |d.code|, d.outcome, Paired(d.prompt, d.response),
                    Paired(d.response, d.prompt), d.modelFingerprint,
                    if log == [] then "GENESIS" else log[|log| - 1].recordHash, "");
    r.(recordHash := h(ServerText(r)))
  }

  class AuditLog {
    var records: seq<Record>

    constructor ()
      ensures records == []
    {
      records := [];
    }

    method Append(h: Hash, d: Draft)
      modifies this
      ensures records == old(records) + [Written(h, old(records), d)]
    {
      var prev := if records == [] then "GENESIS" else records[|records| - 1].recordHash;
      var both := d.prompt.Some? && d.response.Some?;
      var r := Record(|records|, d.timestamp, h(d.code), |d.code|, d.outcome, if both then d.prompt else None,
                      if both then d.response else None, d.modelFingerprint, prev, "");
      var digest := ComputeRecordHash(h, r);
      records := records + [r.(recordHash := digest)];
    }

    /** The server's own verdict on its log. */
    method VerifyChain(h: Hash) returns (intact: bool)
      ensures intact <==> Intact(h, records)
    {
      var prev := "GENESIS";
      for i := 0 to |records|
        invariant prev == Expected(records, i)
        invariant forall j | 0 <= j < i :: Good(h, records, j)
      {
        var r := records[i];
        var d := ComputeRecordHash(h, r);
        BrowserTextIsServerText(r);
        if r.prevHash != prev || d != r.recordHash {
          assert !Good(h, records, i);
          return false;
        }
        prev := r.recordHash;
      }
      return true;
    }
  }

  /** The log after the appends. */
  function Appended(h: Hash, ds: seq<Draft>): seq<Record> {
    if ds == [] then []
    else
      var log := Appended(h, ds[..|ds| - 1]);
      log + [Written(h, log, ds[|ds| - 1])]
  }

  lemma AppendKeepsIntact(h: Hash, log: seq<Record>, d: Draft)
    requires Intact(h, log)
    ensures Intact(h, log + [Written(h, log, d)])
  {
    hide ServerText, Encoding;
    var r := Written(h, log, d);
    var longer := log + [r];
    BrowserTextIsServerText(r);
    SameText(r, r.(recordHash := ""));
    forall i | 0 <= i < |longer| ensures Good(h, longer, i) {
      if i < |log| {
        assert Good(h, log, i) && longer[i] == log[i];
        assert Expected(longer, i) == Expected(log, i);
      } else {
        assert longer[i] == r && Expected(longer, i) == Expected(log, i);
      }
    }
  }

  /** The recorded hash is no part of what is hashed. */
  lemma SameText(r: Record, q: Record)
    requires Content(r) == Content(q)
    ensures ServerText(r) == ServerText(q)
  {
    assert r == Content(r).(recordHash := r.recordHash) && q == Content(r).(recordHash := q.recordHash);
  }

  /**
   * Whatever is appended, in whatever order, the replay finds no break in the log the server wrote; and record i has the
   * index i, the evidence of its draft and the hash of its code.
   */
  lemma {:induction false} AppendedIsIntact(h: Hash, ds: seq<Draft>)
    ensures Intact(h, Appended(h, ds)) && |Appended(h, ds)| == |ds|
    ensures forall i | 0 <= i < |ds| :: var r := Appended(h, ds)[i];
      && r.index == i && r.timestamp == ds[i].timestamp && r.hash == h(ds[i].code) && r.codeLength == |ds[i].code|
      && r.outcome == ds[i].outcome && r.modelFingerprint == ds[i].modelFingerprint
      && (if ds[i].prompt.Some? && ds[i].response.Some?
          then r.promptHash == ds[i].prompt && r.responseHash == ds[i].response
          else r.promptHash == None && r.responseHash == None)
    decreases |ds|
  {
    hide ServerText, Intact;
    if ds == [] {
      NothingIsIntact(h);
    } else {
      var front := ds[..|ds| - 1];
      AppendedIsIntact(h, front);
      AppendKeepsIntact(h, Appended(h, front), ds[|ds| - 1]);
      forall i | 0 <= i < |ds| - 1 ensures ds[i] == front[i] && Appended(h, ds)[i] == Appended(h, front)[i] {
      }
    }
  }

  lemma NothingIsIntact(h: Hash)
    ensures Intact(h, [])
  {
  }
}
