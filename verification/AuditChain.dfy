/** The hash chain of `crates/audit`: what a verifier checks, and why a chain
    whose head is pinned cannot be rewritten without exhibiting a collision. */
module AuditChain {
  import opened Prelude

  /** The hash input of the genesis value: 19 bytes. */
  const GENESIS_PREIMAGE: Bytes := Ascii("sylva-audit-genesis")

  function GenesisHash(h: Hash): Digest {
    h(GENESIS_PREIMAGE)
  }

  function ComputeHash(h: Hash, prevHash: Bytes, canonical: Bytes): Digest {
    h(prevHash + canonical)
  }

  /** What a stored row contributes to the chain: its canonical bytes and the
      two hash columns, which may hold anything once somebody edited them. */
  datatype Link = Link(record: Bytes, prevHash: Bytes, hash: Bytes)

  /** The chain starts at genesis, is linked, and every hash recomputes. */
  predicate Verifies(h: Hash, chain: seq<Link>) {
    chain == [] ||
    (&& Verifies(h, Front(chain))
     && Last(chain).prevHash == Head(h, Front(chain))
     && Last(chain).hash == ComputeHash(h, Last(chain).prevHash, Last(chain).record))
  }

  /** What an outside verifier checks of one row, reading the rows in `seqno`
      order. */
  predicate RowVerifies(h: Hash, chain: seq<Link>, i: nat)
    requires i < |chain|
  {
    && chain[i].prevHash == (if i == 0 then GenesisHash(h) else chain[i - 1].hash)
    && chain[i].hash == ComputeHash(h, chain[i].prevHash, chain[i].record)
  }

  function Head(h: Hash, chain: seq<Link>): Bytes {
    if chain == [] then GenesisHash(h) else Last(chain).hash
  }

  function Records(chain: seq<Link>): (r: seq<Bytes>)
    ensures |r| == |chain|
  {
    Map((l: Link) => l.record, chain)
  }

  /** The byte string whose hash is the head of a chain with these records. */
  function Preimage(h: Hash, records: seq<Bytes>): Bytes
    decreases |records|, 0
  {
    if records == [] then GENESIS_PREIMAGE
    else ChainHash(h, Front(records)) + Last(records)
  }

  function ChainHash(h: Hash, records: seq<Bytes>): Digest
    decreases |records|, 1
  {
    h(Preimage(h, records))
  }

  /** Walks two record lists backwards until their hash inputs differ. */
  function FindCollision(h: Hash, a: seq<Bytes>, b: seq<Bytes>): (Bytes, Bytes) {
    if Preimage(h, a) != Preimage(h, b) || a == [] || b == [] then
      (Preimage(h, a), Preimage(h, b))
    else
      FindCollision(h, Front(a), Front(b))
  }

  /** Walking the rows one by one decides the same thing. */
  lemma {:induction false} VerifiesRowByRow(h: Hash, chain: seq<Link>)
    ensures Verifies(h, chain) <==> forall i :: 0 <= i < |chain| ==> RowVerifies(h, chain, i)
    ensures forall i :: 0 <= i < |chain| ==>
              (RowVerifies(h, chain, i) <==>
               && chain[i].prevHash == (if i == 0 then h(Ascii("sylva-audit-genesis")) else chain[i - 1].hash)
               && chain[i].hash == h(chain[i].prevHash + chain[i].record))
  {
    if chain != [] {
      var front := Front(chain);
      VerifiesRowByRow(h, front);
      assert forall i :: 0 <= i < |front| ==> RowVerifies(h, front, i) == RowVerifies(h, chain, i);
      assert RowVerifies(h, chain, |chain| - 1) <==>
             Last(chain).prevHash == Head(h, front) &&
             Last(chain).hash == ComputeHash(h, Last(chain).prevHash, Last(chain).record);
    }
  }

  /** A verified chain stores the recomputed chain hash in every row, so its
      head is a function of its records alone. */
  lemma {:induction false} VerifiedHead(h: Hash, chain: seq<Link>)
    requires Verifies(h, chain)
    ensures Head(h, chain) == ChainHash(h, Records(chain))
  {
    if chain != [] {
      VerifiedHead(h, Front(chain));
      assert Records(Front(chain)) == Front(Records(chain));
    }
  }

  /** Equal hashes over different records yield two concrete byte strings that
      collide; the lists may have different lengths. */
  lemma {:induction false} EqualHashesCollide(h: Hash, a: seq<Bytes>, b: seq<Bytes>)
    requires ChainHash(h, a) == ChainHash(h, b)
    requires a != b
    ensures var (x, y) := FindCollision(h, a, b); x != y && h(x) == h(y)
  {
    if Preimage(h, a) == Preimage(h, b) {
      if a == [] || b == [] {
        // 19 bytes on one side, at least 32 on the other.
        assert false;
      } else {
        var da, db := ChainHash(h, Front(a)), ChainHash(h, Front(b));
        SplitPreimage(da, Last(a), db, Last(b));
        assert a == Front(a) + [Last(a)] && b == Front(b) + [Last(b)];
        EqualHashesCollide(h, Front(a), Front(b));
      }
    }
  }

  lemma SplitPreimage(da: Digest, ra: Bytes, db: Digest, rb: Bytes)
    requires da + ra == db + rb
    ensures da == db && ra == rb
  {
    assert da == (da + ra)[..32] && db == (db + rb)[..32];
    assert ra == (da + ra)[32..] && rb == (db + rb)[32..];
  }

  /** Tamper evidence by reduction. Two logs that both verify and end in the
      same hash are identical row for row (records and both hash columns), or
      `FindCollision` computes a collision of the hash function from them. */
  lemma TamperEvidence(h: Hash, a: seq<Link>, b: seq<Link>)
    requires Verifies(h, a) && Verifies(h, b)
    requires Head(h, a) == Head(h, b)
    ensures a == b ||
            var (x, y) := FindCollision(h, Records(a), Records(b)); x != y && h(x) == h(y)
  {
    VerifiedHead(h, a);
    VerifiedHead(h, b);
    if Records(a) == Records(b) {
      SameRecordsSameRows(h, a, b);
    } else {
      EqualHashesCollide(h, Records(a), Records(b));
    }
  }

  lemma {:induction false} SameRecordsSameRows(h: Hash, a: seq<Link>, b: seq<Link>)
    requires Verifies(h, a) && Verifies(h, b)
    requires Records(a) == Records(b)
    ensures a == b
  {
    if a != [] {
      assert |a| == |Records(a)| == |b|;
      assert Records(Front(a)) == Front(Records(a));
      assert Records(Front(b)) == Front(Records(b));
      SameRecordsSameRows(h, Front(a), Front(b));
      assert Last(a).record == Last(Records(a)) == Last(b).record;
      assert a == Front(a) + [Last(a)] && b == Front(b) + [Last(b)];
    } else {
      assert |b| == |Records(b)|;
    }
  }

  lemma PrefixKeepsApart(p: Bytes, a: Bytes, b: Bytes)
    requires a != b
    ensures p + a != p + b
  {
    assert (p + a)[|p|..] == a;
    assert (p + b)[|p|..] == b;
  }

  /** An edited record in a chain that still verifies up to the edit is caught
      at the edited row unless the edit itself is a collision. */
  lemma EditedRecordIsCaught(h: Hash, chain: seq<Link>, i: nat, forged: Bytes)
    requires Verifies(h, chain) && i < |chain|
    requires forged != chain[i].record
    ensures Verifies(h, chain[i := chain[i].(record := forged)]) <==>
            h(chain[i].prevHash + chain[i].record) == h(chain[i].prevHash + forged)
  {
    var edited := chain[i := chain[i].(record := forged)];
    var p := chain[i].prevHash;
    PrefixKeepsApart(p, chain[i].record, forged);
    assert edited[i].hash == chain[i].hash && edited[i].prevHash == p;
    VerifiesRowByRow(h, chain);
    VerifiesRowByRow(h, edited);
    assert RowVerifies(h, chain, i);
    assert RowVerifies(h, edited, i) <==> h(p + forged) == h(p + chain[i].record);
    assert forall j :: 0 <= j < |chain| && j != i && RowVerifies(h, chain, j) ==> RowVerifies(h, edited, j);
  }
}
