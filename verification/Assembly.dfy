/** Blocks under assembly at one height: part sets by chain, parts that came early, finished blocks. */
module Assemblies {
  import opened Basics
  import opened MerkleTree
  import opened MerkleProof
  import opened PartSets
  import opened Blocks

  /** Decoding and basic validation of a block's bytes. */
  type Decoder = Bytes -> Option<Block>

  /** A part set and the block hash it was announced with. */
  datatype Slots = Slots(header: PartSetHeader, hash: Hash, parts: seq<Option<Part>>)

  predicate HeaderOk(header: PartSetHeader) {
    header.total >= 0 && |header.root| == HASH_SIZE
  }

  function NewSlots(header: PartSetHeader, hash: Hash): Slots
    requires HeaderOk(header)
  {
    Slots(header, hash, seq(header.total, _ => None))
  }

  /** The held parts are sound, as for PartSet. */
  ghost predicate SlotsOk(h: Hasher, s: Slots) {
    HeaderOk(s.header) && |s.parts| == s.header.total && AllSound(h, s.header, s.parts)
  }

  /** The set after a part was offered. */
  function Place(h: Hasher, s: Slots, p: Part): Slots
    requires SlotsOk(h, s) && ValidateBasic(p.proof) == Passed
  {
    if Judge(h, s.header, s.parts, p) != Accepted then s
    else
      PassingIndexInRange(h, p.proof, s.header.root, p.bytes);
      s.(parts := s.parts[p.proof.index := Some(p)])
  }

  lemma {:induction false} PlaceKeepsSlots(h: Hasher, s: Slots, p: Part)
    requires SlotsOk(h, s) && ValidateBasic(p.proof) == Passed
    ensures SlotsOk(h, Place(h, s, p)) && Place(h, s, p).header == s.header && Place(h, s, p).hash == s.hash
  {
    if Judge(h, s.header, s.parts, p) == Accepted {
      PassingIndexInRange(h, p.proof, s.header.root, p.bytes);
    }
    hide ValidateBasic;
    hide Verify;
  }

  /** The block of a complete set, if its bytes decode to the announced one. */
  function GenBlock(h: Hasher, decode: Decoder, s: Slots): Option<Block> {
    if Filled(s.parts) != |s.parts| then None
    else match decode(Join(PartBytes(s.parts)))
      case None => None
      case Some(b) => if b.header.chainID == s.header.chainID && b.header.height == s.header.height && HashOf(h, b) == s.hash then Some(b) else None
  }

  /**
   * The block hash and the root of the part set are announced together, but the signatures of a
   * precommit cover the hash alone. A second part set under the same hash is accepted with any
   * other content, as long as the block comes with its roots.
   */
  lemma {:induction false} AnyContentPasses(h: Hasher, decode: Decoder, s: Slots, other: Slots, b: Block, content: Content)
    requires GenBlock(h, decode, s) == Some(b)
    requires |b.header.bodyRoot| == |b.header.crossShardBodyRoot| == |b.header.relationRoot| == HASH_SIZE
    requires other.hash == s.hash && other.header.chainID == s.header.chainID && other.header.height == s.header.height
    requires Filled(other.parts) == |other.parts| && decode(Join(PartBytes(other.parts))) == Some(b.(content := content))
    ensures GenBlock(h, decode, other) == Some(b.(content := content))
  {
    ContentIsFree(h, b, content);
    hide HashOf;
  }

  datatype Assembly = Assembly(sets: map<string, Slots>, blocks: map<string, Block>, early: map<string, seq<Part>>)

  function Early(a: Assembly, chain: string): seq<Part> {
    if chain in a.early then a.early[chain] else []
  }

  ghost predicate AllBasic(parts: seq<Part>) {
    forall k :: 0 <= k < |parts| ==> ValidateBasic(parts[k].proof) == Passed
  }

  ghost predicate OfChain(parts: seq<Part>, chain: string) {
    forall k :: 0 <= k < |parts| ==> parts[k].chainID == chain
  }

  /** A finished block is of its chain and height; a foreign one has the hash its part set was announced with. */
  ghost predicate BlockOk(h: Hasher, a: Assembly, me: string, height: int, chain: string)
    requires chain in a.blocks
  {
    && a.blocks[chain].header.chainID == chain && a.blocks[chain].header.height == height
    && (chain != me ==> chain in a.sets && a.sets[chain].hash == HashOf(h, a.blocks[chain]))
  }

  ghost predicate AssemblyOk(h: Hasher, a: Assembly, me: string, height: int) {
    && (forall c :: c in a.sets ==> SlotsOk(h, a.sets[c]) && a.sets[c].header.chainID == c && a.sets[c].header.height == height)
    && (forall c :: c in a.blocks ==> BlockOk(h, a, me, height, c))
    && (forall c :: c in a.early ==> AllBasic(a.early[c]) && OfChain(a.early[c], c))
  }

  /** The parts of this height and round are placed if their set is known, and kept aside otherwise. */
  function Take(h: Hasher, decode: Decoder, height: int, a: Assembly, p: Part): Assembly
    requires ValidateBasic(p.proof) == Passed
    requires p.chainID in a.sets ==> SlotsOk(h, a.sets[p.chainID])
  {
    if p.height != height || p.round != 0 then a
    else if p.chainID !in a.sets then a.(early := a.early[p.chainID := Early(a, p.chainID) + [p]])
    else
      var s := a.sets[p.chainID];
      var t := Place(h, s, p);
      if Judge(h, s.header, s.parts, p) != Accepted then a
      else match GenBlock(h, decode, t)
        case Some(b) => a.(sets := a.sets[p.chainID := t], blocks := a.blocks[p.chainID := b])
        case None => a.(sets := a.sets[p.chainID := t])
  }

  /** Whether a part is taken without complaint: it fits a known set and spoils no block. */
  predicate Welcome(h: Hasher, decode: Decoder, height: int, a: Assembly, p: Part)
    requires ValidateBasic(p.proof) == Passed
    requires p.chainID in a.sets ==> SlotsOk(h, a.sets[p.chainID])
  {
    && p.height == height && p.round == 0 && p.chainID in a.sets
    && Judge(h, a.sets[p.chainID].header, a.sets[p.chainID].parts, p) == Accepted
    && var t := Place(h, a.sets[p.chainID], p);
       Filled(t.parts) == |t.parts| ==> GenBlock(h, decode, t).Some?
  }

  lemma {:induction false} TakeKeepsAssembly(h: Hasher, decode: Decoder, me: string, height: int, a: Assembly, p: Part)
    requires AssemblyOk(h, a, me, height) && ValidateBasic(p.proof) == Passed
    ensures AssemblyOk(h, Take(h, decode, height, a, p), me, height)
  {
    hide HashOf;
    if p.chainID in a.sets {
      PlaceKeepsSlots(h, a.sets[p.chainID], p);
    }
    hide SlotsOk;
    hide Judge;
    hide Place;
    hide ValidateBasic;
  }

  /** From a to b the blocks of one chain may have arrived: no block is lost, no part set is renamed. */
  ghost predicate Grown(h: Hasher, a: Assembly, b: Assembly, chain: string) {
    && chain in a.sets && b.early == a.early
    && b.sets.Keys == a.sets.Keys && (forall c :: c in a.sets ==> b.sets[c].hash == a.sets[c].hash)
    && (forall c :: c in a.blocks && c != chain ==> c in b.blocks && b.blocks[c] == a.blocks[c])
    && (forall c :: c in b.blocks && c != chain ==> c in a.blocks)
    && (b.blocks == a.blocks || (chain in b.blocks && HashOf(h, b.blocks[chain]) == a.sets[chain].hash))
  }

  lemma {:induction false} GrowthAdds(h: Hasher, a: Assembly, b: Assembly, d: Assembly, chain: string)
    requires Grown(h, a, b, chain) && Grown(h, b, d, chain)
    ensures Grown(h, a, d, chain)
  {
  }

  lemma {:induction false} TakeGrows(h: Hasher, decode: Decoder, me: string, height: int, a: Assembly, p: Part)
    requires AssemblyOk(h, a, me, height) && ValidateBasic(p.proof) == Passed && p.chainID in a.sets
    ensures Grown(h, a, Take(h, decode, height, a, p), p.chainID)
  {
    PlaceKeepsSlots(h, a.sets[p.chainID], p);
    hide SlotsOk;
    hide Judge;
    hide Place;
    hide ValidateBasic;
    hide Filled;
  }

  /** A new part set for a chain; the parts that came early are offered to it. */
  function Announce(a: Assembly, header: PartSetHeader, hash: Hash): Assembly
    requires HeaderOk(header)
  {
    a.(sets := a.sets[header.chainID := NewSlots(header, hash)])
  }

  lemma {:induction false} AnnounceKeepsAssembly(h: Hasher, a: Assembly, me: string, height: int, header: PartSetHeader, hash: Hash)
    requires AssemblyOk(h, a, me, height) && HeaderOk(header) && header.height == height
    requires header.chainID == me || header.chainID !in a.sets
    ensures AssemblyOk(h, Announce(a, header, hash), me, height)
  {
    hide ValidateBasic;
  }

  /** The proposer's own part set and block fit in. */
  lemma {:induction false} OwnBlockFits(h: Hasher, a: Assembly, me: string, height: int, slots: Slots, block: Block)
    requires AssemblyOk(h, a, me, height) && SlotsOk(h, slots) && slots.header.chainID == me && slots.header.height == height
    requires block.header.chainID == me && block.header.height == height
    ensures AssemblyOk(h, Assembly(a.sets[me := slots], a.blocks[me := block], a.early), me, height)
  {
    hide SlotsOk;
    hide AllBasic;
    hide OfChain;
  }

  /** Re-offers the first n parts of a list. */
  function TakeAll(h: Hasher, decode: Decoder, me: string, height: int, a: Assembly, parts: seq<Part>, n: nat): (b: Assembly)
    requires AssemblyOk(h, a, me, height) && AllBasic(parts) && n <= |parts|
    ensures AssemblyOk(h, b, me, height)
  {
    if n == 0 then a
    else
      var b := TakeAll(h, decode, me, height, a, parts, n - 1);
      TakeKeepsAssembly(h, decode, me, height, b, parts[n - 1]);
      Take(h, decode, height, b, parts[n - 1])
  }

  /** Re-offering a chain's parts touches that chain only, and any block it brings is the announced one. */
  lemma {:induction false} TakeAllGrows(h: Hasher, decode: Decoder, me: string, height: int, a: Assembly, parts: seq<Part>, n: nat,
                                        chain: string)
    requires AssemblyOk(h, a, me, height) && AllBasic(parts) && n <= |parts|
    requires chain in a.sets && OfChain(parts, chain)
    ensures Grown(h, a, TakeAll(h, decode, me, height, a, parts, n), chain)
  {
    hide SlotsOk;
    hide AssemblyOk;
    hide Take;
    if n > 0 {
      TakeAllGrows(h, decode, me, height, a, parts, n - 1, chain);
      var b := TakeAll(h, decode, me, height, a, parts, n - 1);
      TakeGrows(h, decode, me, height, b, parts[n - 1]);
      hide Grown;
      GrowthAdds(h, a, b, TakeAll(h, decode, me, height, a, parts, n), chain);
    }
  }

  /** The early parts of a chain, offered to its new set. */
  function EarlyTaken(h: Hasher, decode: Decoder, me: string, height: int, a: Assembly, chain: string): (b: Assembly)
    requires AssemblyOk(h, a, me, height)
    ensures AssemblyOk(h, b, me, height)
  {
    TakeAll(h, decode, me, height, a, Early(a, chain), |Early(a, chain)|)
  }

  lemma {:induction false} EarlyPartsOk(h: Hasher, a: Assembly, me: string, height: int, chain: string)
    requires AssemblyOk(h, a, me, height)
    ensures AllBasic(Early(a, chain)) && OfChain(Early(a, chain), chain)
  {
  }

  lemma {:induction false} EarlyPartsGrow(h: Hasher, decode: Decoder, me: string, height: int, a: Assembly, chain: string)
    requires AssemblyOk(h, a, me, height) && chain in a.sets
    ensures Grown(h, a, EarlyTaken(h, decode, me, height, a, chain), chain)
  {
    TakeAllGrows(h, decode, me, height, a, Early(a, chain), |Early(a, chain)|, chain);
  }

  /** A new part set with the early parts offered to it. */
  function Announced(h: Hasher, decode: Decoder, me: string, height: int, a: Assembly, header: PartSetHeader, hash: Hash): (b: Assembly)
    requires AssemblyOk(h, a, me, height) && HeaderOk(header) && header.height == height
    requires header.chainID == me || header.chainID !in a.sets
    ensures AssemblyOk(h, b, me, height)
  {
    AnnounceKeepsAssembly(h, a, me, height, header, hash);
    EarlyTaken(h, decode, me, height, Announce(a, header, hash), header.chainID)
  }

  /** No block is lost to growth, and the chain's block is the old one or the announced one. */
  lemma {:induction false} GrownBlocks(h: Hasher, a: Assembly, b: Assembly, chain: string)
    requires Grown(h, a, b, chain)
    ensures a.blocks.Keys <= b.blocks.Keys
    ensures forall c :: c in b.blocks ==> (c in a.blocks && b.blocks[c] == a.blocks[c]) || (c == chain && HashOf(h, b.blocks[c]) == a.sets[c].hash)
  {
    forall c | c in a.blocks
      ensures c in b.blocks
    {
    }
  }

  /** A part for an unknown set changes neither sets nor blocks. */
  lemma {:induction false} TakeUnknown(h: Hasher, decode: Decoder, height: int, a: Assembly, p: Part)
    requires ValidateBasic(p.proof) == Passed && p.chainID !in a.sets
    ensures Take(h, decode, height, a, p).sets == a.sets && Take(h, decode, height, a, p).blocks == a.blocks
  {
  }

  /**
   * A block that is put together under the header of a split block is that block decoded, or a
   * collision of the hash function can be read off the parts.
   */
  lemma {:induction false} AssembledIsSent(h: Hasher, decode: Decoder, s: Slots, pieces: seq<Bytes>)
    requires SlotsOk(h, s) && GenBlock(h, decode, s).Some?
    requires s.header.total == |pieces| && s.header.root == Root(h, pieces)
    ensures decode(Join(pieces)) == GenBlock(h, decode, s) || Collides(h, Mismatch(h, pieces, s.parts, 0))
  {
    Reassembly(h, pieces, s.header, s.parts);
    hide Root;
    hide Mismatch;
  }

  // ----- the sent block arrives -----

  /** A chain's set was announced under the header of a block that was cut into these pieces. */
  ghost predicate Awaits(h: Hasher, decode: Decoder, a: Assembly, chain: string, pieces: seq<Bytes>, b: Block) {
    && chain in a.sets && HeaderOf(h, a.sets[chain].header, pieces) && a.sets[chain].header.round == 0 && |pieces| > 0
    && decode(Join(pieces)) == Some(b) && b.header.chainID == chain && b.header.height == a.sets[chain].header.height
    && HashOf(h, b) == a.sets[chain].hash
  }

  /** Unless a slot is open, the sent block is there, or a collision can be read off the parts. */
  ghost predicate OpenOrThere(h: Hasher, a: Assembly, chain: string, pieces: seq<Bytes>, b: Block)
    requires chain in a.sets && |a.sets[chain].parts| == |pieces|
  {
    || (exists i :: 0 <= i < |pieces| && a.sets[chain].parts[i].None?)
    || (chain in a.blocks && a.blocks[chain] == b)
    || Collides(h, Mismatch(h, pieces, a.sets[chain].parts, 0))
  }

  /** One part offered to a set: a good part fills its slot, no slot is emptied, nothing else is kept. */
  lemma {:induction false} PlaceFills(h: Hasher, s: Slots, p: Part, pieces: seq<Bytes>)
    requires SlotsOk(h, s) && ValidateBasic(p.proof) == Passed && HeaderOf(h, s.header, pieces)
    ensures forall i :: 0 <= i < |pieces| && p == PartOf(h, s.header, pieces, i) ==> Place(h, s, p).parts[i].Some?
    ensures |Place(h, s, p).parts| == |pieces|
    ensures forall i :: 0 <= i < |pieces| && s.parts[i].Some? ==> Place(h, s, p).parts[i] == s.parts[i]
    ensures Place(h, s, p) == s || exists i :: 0 <= i < |pieces| && s.parts[i].None? && Place(h, s, p).parts == s.parts[i := Some(p)]
  {
    hide Root;
    hide ProofOf;
    forall i | 0 <= i < |pieces| && p == PartOf(h, s.header, pieces, i)
      ensures Place(h, s, p).parts[i].Some?
    {
      GoodPartAccepted(h, s.header, pieces, s.parts, i);
    }
    if Judge(h, s.header, s.parts, p) == Accepted {
      PassingIndexInRange(h, p.proof, s.header.root, p.bytes);
    }
    hide Verify;
    hide ValidateBasic;
  }

  /** The last open slot filled under the header of the sent block gives that block, or a collision. */
  lemma {:induction false} LastPartGives(h: Hasher, decode: Decoder, s: Slots, pieces: seq<Bytes>, b: Block)
    requires SlotsOk(h, s) && HeaderOf(h, s.header, pieces) && decode(Join(pieces)) == Some(b)
    requires b.header.chainID == s.header.chainID && b.header.height == s.header.height && HashOf(h, b) == s.hash
    requires forall i :: 0 <= i < |pieces| ==> s.parts[i].Some?
    ensures GenBlock(h, decode, s) == Some(b) || Collides(h, Mismatch(h, pieces, s.parts, 0))
  {
    hide HashOf;
    hide Root;
    hide Mismatch;
    FilledAll(s.parts);
    Reassembly(h, pieces, s.header, s.parts);
  }

  /** A part of this height for a known set changes that set and, if it closes it, that chain's block. */
  lemma {:induction false} TakeKnown(h: Hasher, decode: Decoder, height: int, a: Assembly, p: Part)
    requires ValidateBasic(p.proof) == Passed && p.chainID in a.sets && SlotsOk(h, a.sets[p.chainID]) && p.height == height && p.round == 0
    ensures var t, slots := Take(h, decode, height, a, p), Place(h, a.sets[p.chainID], p);
            && t.sets == a.sets[p.chainID := slots] && t.early == a.early
            && t.blocks == if slots == a.sets[p.chainID] || GenBlock(h, decode, slots).None? then a.blocks
                           else a.blocks[p.chainID := GenBlock(h, decode, slots).value]
  {
    hide GenBlock;
    var s := a.sets[p.chainID];
    if Judge(h, s.header, s.parts, p) == Accepted {
      PassingIndexInRange(h, p.proof, s.header.root, p.bytes);
      hide Verify;
      hide ValidateBasic;
      assert Place(h, s, p).parts[p.proof.index] == Some(p) && s.parts[p.proof.index].None?;
    }
  }

  /** A part is taken without complaint exactly if it fills a slot and, should that close the set, gives the block. */
  lemma {:induction false} WelcomeIff(h: Hasher, decode: Decoder, height: int, a: Assembly, p: Part)
    requires ValidateBasic(p.proof) == Passed && (p.chainID in a.sets ==> SlotsOk(h, a.sets[p.chainID]))
    ensures var t := Take(h, decode, height, a, p);
            Welcome(h, decode, height, a, p)
            <==> t.sets != a.sets && p.chainID in t.sets
                 && ((exists i :: 0 <= i < |t.sets[p.chainID].parts| && t.sets[p.chainID].parts[i].None?)
                     || GenBlock(h, decode, t.sets[p.chainID]).Some?)
  {
    if p.chainID in a.sets && p.height == height && p.round == 0 {
      var s := a.sets[p.chainID];
      TakeKnown(h, decode, height, a, p);
      FilledAll(Place(h, s, p).parts);
      if Judge(h, s.header, s.parts, p) == Accepted {
        PassingIndexInRange(h, p.proof, s.header.root, p.bytes);
        hide Verify;
        hide ValidateBasic;
        hide GenBlock;
        assert Place(h, s, p).parts[p.proof.index] == Some(p) && s.parts[p.proof.index].None?;
      }
    }
    hide Verify;
    hide GenBlock;
  }

  /** What a good or bad part does to the set of a chain that awaits its block. */
  lemma {:induction false} FillsSet(h: Hasher, decode: Decoder, height: int, a: Assembly, p: Part, chain: string, pieces: seq<Bytes>, b: Block)
    requires ValidateBasic(p.proof) == Passed && p.height == height && p.round == 0 && p.chainID == chain
    requires Awaits(h, decode, a, chain, pieces, b) && SlotsOk(h, a.sets[chain]) && OpenOrThere(h, a, chain, pieces, b)
    ensures var t := Take(h, decode, height, a, p);
            && t.sets == a.sets[chain := Place(h, a.sets[chain], p)] && |t.sets[chain].parts| == |pieces|
            && OpenOrThere(h, t, chain, pieces, b)
  {
    hide HashOf;
    hide Root;
    hide ProofOf;
    hide Mismatch;
    hide Collides;
    hide Judge;
    hide ValidateBasic;
    var s := a.sets[chain];
    PlaceFills(h, s, p, pieces);
    PlaceKeepsSlots(h, s, p);
    TakeKnown(h, decode, height, a, p);
    hide Take;
    hide Place;
    hide AllSound;
    hide GenBlock;
    var slots := Place(h, s, p);
    if slots != s && forall i :: 0 <= i < |pieces| ==> slots.parts[i].Some? {
      LastPartGives(h, decode, slots, pieces, b);
    }
  }

  /** What one part does to a chain that awaits its block. */
  lemma {:induction false} TakeFills(h: Hasher, decode: Decoder, me: string, height: int, a: Assembly, p: Part, chain: string,
                                     pieces: seq<Bytes>, b: Block)
    requires AssemblyOk(h, a, me, height) && ValidateBasic(p.proof) == Passed && Awaits(h, decode, a, chain, pieces, b)
    requires OpenOrThere(h, a, chain, pieces, b)
    ensures var t := Take(h, decode, height, a, p);
            && Awaits(h, decode, t, chain, pieces, b) && t.sets[chain].header == a.sets[chain].header
            && |t.sets[chain].parts| == |pieces| && OpenOrThere(h, t, chain, pieces, b)
            && (forall i :: 0 <= i < |pieces| && a.sets[chain].parts[i].Some? ==> t.sets[chain].parts[i].Some?)
            && (forall i :: 0 <= i < |pieces| && p == PartOf(h, a.sets[chain].header, pieces, i) ==> t.sets[chain].parts[i].Some?)
  {
    hide HashOf;
    hide Root;
    hide ProofOf;
    hide Mismatch;
    hide Collides;
    hide Judge;
    hide ValidateBasic;
    hide Place;
    hide AllSound;
    hide GenBlock;
    if p.chainID == chain && p.height == height && p.round == 0 {
      FillsSet(h, decode, height, a, p, chain, pieces, b);
      PlaceFills(h, a.sets[chain], p, pieces);
      PlaceKeepsSlots(h, a.sets[chain], p);
      hide Take;
    }
  }

  /** The parts that were offered hold their slots. */
  ghost predicate Landed(h: Hasher, a: Assembly, chain: string, pieces: seq<Bytes>, parts: seq<Part>, n: nat)
    requires chain in a.sets && |a.sets[chain].parts| == |pieces| && n <= |parts|
  {
    forall i :: 0 <= i < |pieces| && PartOf(h, a.sets[chain].header, pieces, i) in parts[..n] ==> a.sets[chain].parts[i].Some?
  }

  lemma {:induction false} TakeAllFills(h: Hasher, decode: Decoder, me: string, height: int, a: Assembly, parts: seq<Part>, n: nat,
                                        chain: string, pieces: seq<Bytes>, b: Block)
    requires AssemblyOk(h, a, me, height) && AllBasic(parts) && n <= |parts|
    requires Awaits(h, decode, a, chain, pieces, b) && |a.sets[chain].parts| == |pieces| && OpenOrThere(h, a, chain, pieces, b)
    ensures var t := TakeAll(h, decode, me, height, a, parts, n);
            && Awaits(h, decode, t, chain, pieces, b) && t.sets[chain].header == a.sets[chain].header
            && |t.sets[chain].parts| == |pieces| && OpenOrThere(h, t, chain, pieces, b)
            && (forall i :: 0 <= i < |pieces| && a.sets[chain].parts[i].Some? ==> t.sets[chain].parts[i].Some?)
            && Landed(h, t, chain, pieces, parts, n)
  {
    hide Root;
    hide ProofOf;
    hide PartOf;
    hide ValidateBasic;
    hide Take;
    hide OpenOrThere;
    hide Awaits;
    hide AssemblyOk;
    assert chain in a.sets && a.sets[chain].header.total == |pieces| by { OpenAwaits(h, decode, a, chain, pieces, b); }
    if n > 0 {
      TakeAllFills(h, decode, me, height, a, parts, n - 1, chain, pieces, b);
      var t := TakeAll(h, decode, me, height, a, parts, n - 1);
      TakeFills(h, decode, me, height, t, parts[n - 1], chain, pieces, b);
      assert parts[..n] == parts[..n - 1] + [parts[n - 1]];
    } else {
      assert parts[..0] == [];
    }
  }

  lemma {:induction false} OpenAwaits(h: Hasher, decode: Decoder, a: Assembly, chain: string, pieces: seq<Bytes>, b: Block)
    requires Awaits(h, decode, a, chain, pieces, b)
    ensures chain in a.sets && a.sets[chain].header.total == |pieces|
  {
  }

  /** A part that comes before its set is announced is kept behind the earlier ones; one of another height or round is dropped. */
  lemma {:induction false} TakeEarly(h: Hasher, decode: Decoder, height: int, a: Assembly, p: Part, c: string)
    requires ValidateBasic(p.proof) == Passed && p.chainID !in a.sets
    ensures Early(Take(h, decode, height, a, p), c) == if c == p.chainID && p.height == height && p.round == 0 then Early(a, c) + [p] else Early(a, c)
  {
    hide ValidateBasic;
  }

  /**
   * Delivered parts assemble. Once a chain's set is announced and every part of the block that was
   * cut came before or after that, in any order, any number of times and among any other parts of
   * any chains, the sent block is there, or a collision of the hash function can be read off the parts.
   */
  lemma {:induction false} PartsAssemble(h: Hasher, decode: Decoder, me: string, height: int, a: Assembly, header: PartSetHeader,
                                         hash: Hash, parts: seq<Part>, pieces: seq<Bytes>, b: Block)
    requires AssemblyOk(h, a, me, height) && AllBasic(parts)
    requires HeaderOk(header) && header.height == height && header.round == 0 && (header.chainID == me || header.chainID !in a.sets)
    requires HeaderOf(h, header, pieces) && |pieces| > 0 && decode(Join(pieces)) == Some(b)
    requires b.header.chainID == header.chainID && b.header.height == height && HashOf(h, b) == hash
    requires AllOffered(h, header, pieces, Early(a, header.chainID) + parts)
    ensures var t := TakeAll(h, decode, me, height, Announced(h, decode, me, height, a, header, hash), parts, |parts|);
            && header.chainID in t.sets && |t.sets[header.chainID].parts| == |pieces|
            && (Collides(h, Mismatch(h, pieces, t.sets[header.chainID].parts, 0))
                || (header.chainID in t.blocks && t.blocks[header.chainID] == b))
  {
    hide Root;
    hide ProofOf;
    hide PartOf;
    hide HashOf;
    hide Take;
    hide Mismatch;
    hide Collides;
    var chain, early := header.chainID, Early(a, header.chainID);
    AnnounceKeepsAssembly(h, a, me, height, header, hash);
    EarlyPartsOk(h, a, me, height, chain);
    hide ValidateBasic;
    hide AssemblyOk;
    var blank := Announce(a, header, hash);
    assert Early(blank, chain) == early && blank.sets[chain] == NewSlots(header, hash);
    assert blank.sets[chain].parts[0].None?;
    assert Awaits(h, decode, blank, chain, pieces, b) && OpenOrThere(h, blank, chain, pieces, b);
    hide Awaits;
    TakeAllFills(h, decode, me, height, blank, early, |early|, chain, pieces, b);
    var s := Announced(h, decode, me, height, a, header, hash);
    assert early[..|early|] == early && parts[..|parts|] == parts;
    TakeAllFills(h, decode, me, height, s, parts, |parts|, chain, pieces, b);
  }
}
