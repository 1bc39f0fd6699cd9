/** Blocks: what their hash covers, and what it does not. */
module Blocks {
  import opened MerkleTree
  import opened MerkleProof

  datatype Header = Header(blockType: int, hashPointer: Bytes, chainID: string, height: int, time: Bytes, bodyRoot: Bytes,
                           crossShardBodyRoot: Bytes, stateRoot: Bytes, receiptRoot: Bytes, relationRoot: Bytes)

  /** Everything below the header: both bodies and the relation to the previous height. */
  datatype Content = Content(bodyTxs: seq<Bytes>, crossShardTxs: seq<Bytes>, crossShardDatas: seq<Bytes>,
                             relatedCommitStatus: seq<Bytes>, relatedHash: seq<Bytes>, myCommitStatus: Bytes)

  datatype Block = Block(header: Header, content: Content)

  // ----- roots and hash -----

  function TxHashes(h: Hasher, txs: seq<Bytes>): (l: seq<Bytes>)
    ensures |l| == |txs| && forall i :: 0 <= i < |txs| ==> l[i] == h(txs[i])
  {
    seq(|txs|, i requires 0 <= i < |txs| => h(txs[i]))
  }

  function BodyRoot(h: Hasher, c: Content): Digest {
    Root(h, TxHashes(h, c.bodyTxs))
  }

  function CrossShardParts(h: Hasher, c: Content): seq<Bytes> {
    [Root(h, TxHashes(h, c.crossShardTxs)), Root(h, c.crossShardDatas)]
  }

  function CrossShardRoot(h: Hasher, c: Content): Digest {
    Root(h, CrossShardParts(h, c))
  }

  function RelationParts(h: Hasher, c: Content): seq<Bytes> {
    [Root(h, c.relatedCommitStatus), Root(h, c.relatedHash), c.myCommitStatus]
  }

  function RelationRoot(h: Hasher, c: Content): Digest {
    Root(h, RelationParts(h, c))
  }

  /** The header with every root that is not 32 bytes long computed; the others are kept as they came. */
  function FilledHeader(h: Hasher, b: Block): Header {
    b.header.(bodyRoot := if |b.header.bodyRoot| != HASH_SIZE then BodyRoot(h, b.content) else b.header.bodyRoot,
              relationRoot := if |b.header.relationRoot| != HASH_SIZE then RelationRoot(h, b.content) else b.header.relationRoot,
              crossShardBodyRoot := if |b.header.crossShardBodyRoot| != HASH_SIZE then CrossShardRoot(h, b.content)
                                    else b.header.crossShardBodyRoot)
  }

  /** The n low bytes of a number, lowest first. */
  function IntBytes(x: int, n: nat): (b: Bytes)
    ensures |b| == n
    decreases n
  {
    if n == 0 then [] else [x % 256] + IntBytes(x / 256, n - 1)
  }

  /** The bytes of a chain name. */
  function TextBytes(s: string): (b: Bytes)
    ensures |b| == |s|
  {
    seq(|s|, i requires 0 <= i < |s| => s[i] as int % 256)
  }

  function Fields(x: Header): (l: seq<Bytes>) {
    [IntBytes(x.blockType, 1), x.hashPointer, TextBytes(x.chainID), IntBytes(x.height, 8), x.time,
     x.bodyRoot, x.crossShardBodyRoot, x.stateRoot, x.receiptRoot, x.relationRoot]
  }

  function HashOf(h: Hasher, b: Block): Digest {
    Root(h, Fields(FilledHeader(h, b)))
  }

  /** The three roots the hash was taken over are those of the content. */
  predicate RootsTrue(h: Hasher, b: Block) {
    && FilledHeader(h, b).bodyRoot == BodyRoot(h, b.content)
    && FilledHeader(h, b).crossShardBodyRoot == CrossShardRoot(h, b.content)
    && FilledHeader(h, b).relationRoot == RelationRoot(h, b.content)
  }

  // ----- the hash binds the header -----

  /** The low bytes of a number fix it modulo a power of 256. */
  lemma {:induction false} IntBytesBind(x: int, y: int, n: nat)
    requires IntBytes(x, n) == IntBytes(y, n)
    ensures x % Pow256(n) == y % Pow256(n)
    decreases n
  {
    if n > 0 {
      assert IntBytes(x, n)[0] == IntBytes(y, n)[0] && IntBytes(x, n)[1..] == IntBytes(y, n)[1..];
      assert IntBytes(x, n)[1..] == IntBytes(x / 256, n - 1) && IntBytes(y, n)[1..] == IntBytes(y / 256, n - 1);
      IntBytesBind(x / 256, y / 256, n - 1);
      LowAndHigh(x, Pow256(n - 1));
      LowAndHigh(y, Pow256(n - 1));
    }
  }

  function Pow256(n: nat): (p: nat)
    ensures p > 0
  {
    if n == 0 then 1 else 256 * Pow256(n - 1)
  }

  lemma {:induction false} LowAndHigh(x: int, p: nat)
    requires p > 0
    ensures x % (256 * p) == x % 256 + 256 * (x / 256 % p)
  {
    var q, r := x / 256 / p, x / 256 % p;
    assert x == 256 * (x / 256) + x % 256 && x / 256 == p * q + r;
    var low := x % 256 + 256 * r;
    assert 256 * (p * q) == 256 * p * q;
    assert x == 256 * p * q + low && 0 <= low < 256 * p by {
      assert r <= p - 1;
    }
    ModIs(x, 256 * p, q, low);
  }

  lemma {:induction false} ModIs(x: int, m: nat, q: int, r: int)
    requires x == m * q + r && 0 <= r < m
    ensures x % m == r
  {
    var d := x / m - q;
    assert m * d == r - x % m;
    MultipleIsFar(m, d);
  }

  lemma {:induction false} MultipleIsFar(m: int, d: int)
    requires m >= 0
    ensures d >= 1 ==> m * d >= m
    ensures d <= -1 ==> m * d <= -m
  {
  }

  /**
   * Two blocks with one hash agree in every header field the hash is taken over, the numbers modulo
   * their widths, or a collision is exhibited.
   */
  lemma {:induction false} HashBindsHeader(h: Hasher, b: Block, c: Block)
    requires HashOf(h, b) == HashOf(h, c)
    ensures var x, y := FilledHeader(h, b), FilledHeader(h, c);
            || Collides(h, FindInBlocks(h, b, c))
            || (&& x.blockType % 0x100 == y.blockType % 0x100 && x.height % 0x1_0000_0000_0000_0000 == y.height % 0x1_0000_0000_0000_0000
                && x.hashPointer == y.hashPointer && TextBytes(x.chainID) == TextBytes(y.chainID) && x.time == y.time
                && x.bodyRoot == y.bodyRoot && x.crossShardBodyRoot == y.crossShardBodyRoot && x.relationRoot == y.relationRoot
                && x.stateRoot == y.stateRoot && x.receiptRoot == y.receiptRoot)
  {
    var x, y := FilledHeader(h, b), FilledHeader(h, c);
    RootBinds(h, Fields(x), Fields(y));
    hide Root;
    hide FindInLists;
    hide FindInContents;
    hide Collides;
    hide FilledHeader;
    if Fields(x) == Fields(y) {
      forall k | 0 <= k < 10
        ensures Fields(x)[k] == Fields(y)[k]
      {
      }
      assert Fields(x)[0] == IntBytes(x.blockType, 1) && Fields(x)[3] == IntBytes(x.height, 8);
      IntBytesBind(x.blockType, y.blockType, 1);
      IntBytesBind(x.height, y.height, 8);
      PowersOf256();
    }
  }

  lemma {:induction false} PowersOf256()
    ensures Pow256(1) == 0x100 && Pow256(8) == 0x1_0000_0000_0000_0000
  {
    assert Pow256(2) == 0x1_0000 && Pow256(4) == 0x1_0000_0000 && Pow256(6) == 0x1_0000_0000_0000;
  }

  // ----- the hash does not bind the content -----

  /** Under roots that came with the block, any other content has the same hash. */
  lemma {:induction false} ContentIsFree(h: Hasher, b: Block, other: Content)
    requires |b.header.bodyRoot| == |b.header.crossShardBodyRoot| == |b.header.relationRoot| == HASH_SIZE
    ensures HashOf(h, b.(content := other)) == HashOf(h, b)
  {
    assert FilledHeader(h, b.(content := other)) == FilledHeader(h, b);
  }

  /** The block a C-shard's proposer makes: the header is filled before the read data is put in. */
  function Made(h: Hasher, header: Header, content: Content, datas: seq<Bytes>): Block {
    Block(FilledHeader(h, Block(header, content.(crossShardDatas := []))), content.(crossShardDatas := datas))
  }

  /** So the read data of a proposed block is not under its hash. */
  lemma {:induction false} ReadDataIsFree(h: Hasher, header: Header, content: Content, datas: seq<Bytes>, other: seq<Bytes>)
    ensures HashOf(h, Made(h, header, content, datas)) == HashOf(h, Made(h, header, content, other))
  {
    ContentIsFree(h, Made(h, header, content, datas), content.(crossShardDatas := other));
  }

  /** What a C-shard sends out is its block without inner transactions, under the same hash. */
  lemma {:induction false} StrippedKeepsHash(h: Hasher, b: Block)
    requires |b.header.bodyRoot| == HASH_SIZE
    ensures HashOf(h, b.(content := b.content.(bodyTxs := []))) == HashOf(h, b)
  {
    assert FilledHeader(h, b.(content := b.content.(bodyTxs := []))) == FilledHeader(h, b);
  }

  // ----- when it does -----

  function FindInTxs(h: Hasher, s: seq<Bytes>, t: seq<Bytes>): Finding {
    if TxHashes(h, s) != TxHashes(h, t) then FindInLists(h, TxHashes(h, s), TxHashes(h, t)) else FirstDifference(s, t)
  }

  function FirstDifference(s: seq<Bytes>, t: seq<Bytes>): Finding
    requires |s| == |t|
  {
    if s == [] then Nothing else if s[0] != t[0] then Collision(s[0], t[0]) else FirstDifference(s[1..], t[1..])
  }

  /** Two contents with the same roots, compared part by part. */
  function FindInContents(h: Hasher, c: Content, d: Content): Finding {
    if c.bodyTxs != d.bodyTxs then FindInTxs(h, c.bodyTxs, d.bodyTxs)
    else if CrossShardParts(h, c) != CrossShardParts(h, d) then FindInLists(h, CrossShardParts(h, c), CrossShardParts(h, d))
    else if c.crossShardTxs != d.crossShardTxs then FindInTxs(h, c.crossShardTxs, d.crossShardTxs)
    else if c.crossShardDatas != d.crossShardDatas then FindInLists(h, c.crossShardDatas, d.crossShardDatas)
    else if RelationParts(h, c) != RelationParts(h, d) then FindInLists(h, RelationParts(h, c), RelationParts(h, d))
    else if c.relatedCommitStatus != d.relatedCommitStatus then FindInLists(h, c.relatedCommitStatus, d.relatedCommitStatus)
    else FindInLists(h, c.relatedHash, d.relatedHash)
  }

  /** Two blocks with the same hash: first their headers, then their contents. */
  function FindInBlocks(h: Hasher, b: Block, c: Block): Finding {
    if Fields(FilledHeader(h, b)) != Fields(FilledHeader(h, c)) then FindInLists(h, Fields(FilledHeader(h, b)), Fields(FilledHeader(h, c)))
    else FindInContents(h, b.content, c.content)
  }

  lemma {:induction false} DifferenceCollides(h: Hasher, s: seq<Bytes>, t: seq<Bytes>)
    requires |s| == |t| && s != t && forall i :: 0 <= i < |s| ==> h(s[i]) == h(t[i])
    ensures Collides(h, FirstDifference(s, t))
  {
    if s[0] == t[0] {
      assert s == [s[0]] + s[1..] && t == [t[0]] + t[1..];
      DifferenceCollides(h, s[1..], t[1..]);
    }
  }

  lemma {:induction false} TxsBind(h: Hasher, s: seq<Bytes>, t: seq<Bytes>)
    requires Root(h, TxHashes(h, s)) == Root(h, TxHashes(h, t)) && s != t
    ensures Collides(h, FindInTxs(h, s, t))
  {
    hide Root;
    hide FindInLists;
    if TxHashes(h, s) != TxHashes(h, t) {
      RootBinds(h, TxHashes(h, s), TxHashes(h, t));
    } else {
      assert |s| == |TxHashes(h, s)| == |t|;
      forall i | 0 <= i < |s|
        ensures h(s[i]) == h(t[i])
      {
        assert TxHashes(h, s)[i] == TxHashes(h, t)[i];
      }
      DifferenceCollides(h, s, t);
    }
  }

  /** Equal roots mean equal content, or a collision is exhibited. */
  lemma {:induction false} RootsBindContent(h: Hasher, c: Content, d: Content)
    requires BodyRoot(h, c) == BodyRoot(h, d) && CrossShardRoot(h, c) == CrossShardRoot(h, d) && RelationRoot(h, c) == RelationRoot(h, d)
    ensures c == d || Collides(h, FindInContents(h, c, d))
  {
    hide Root;
    hide FindInLists;
    hide FindInTxs;
    hide Collides;
    if c.bodyTxs != d.bodyTxs {
      TxsBind(h, c.bodyTxs, d.bodyTxs);
    } else if CrossShardParts(h, c) != CrossShardParts(h, d) {
      RootBinds(h, CrossShardParts(h, c), CrossShardParts(h, d));
    } else if c.crossShardTxs != d.crossShardTxs {
      assert CrossShardParts(h, c)[0] == CrossShardParts(h, d)[0];
      TxsBind(h, c.crossShardTxs, d.crossShardTxs);
    } else if c.crossShardDatas != d.crossShardDatas {
      assert CrossShardParts(h, c)[1] == CrossShardParts(h, d)[1];
      RootBinds(h, c.crossShardDatas, d.crossShardDatas);
    } else {
      RelationBinds(h, c, d);
    }
  }

  lemma {:induction false} RelationBinds(h: Hasher, c: Content, d: Content)
    requires RelationRoot(h, c) == RelationRoot(h, d)
    requires c.bodyTxs == d.bodyTxs && c.crossShardTxs == d.crossShardTxs && c.crossShardDatas == d.crossShardDatas
    ensures c == d || Collides(h, FindInContents(h, c, d))
  {
    hide Root;
    hide FindInLists;
    hide FindInTxs;
    hide Collides;
    if RelationParts(h, c) != RelationParts(h, d) {
      RootBinds(h, RelationParts(h, c), RelationParts(h, d));
    } else {
      assert RelationParts(h, c)[0] == RelationParts(h, d)[0];
      assert RelationParts(h, c)[1] == RelationParts(h, d)[1];
      assert RelationParts(h, c)[2] == RelationParts(h, d)[2];
      if c.relatedCommitStatus != d.relatedCommitStatus {
        RootBinds(h, c.relatedCommitStatus, d.relatedCommitStatus);
      } else {
        RootBinds(h, c.relatedHash, d.relatedHash);
      }
    }
  }

  /**
   * When a hash fixes the content. Given a block whose roots are true, another block with the
   * same hash has the same content exactly if its roots are true as well, or a collision of the
   * hash function is exhibited.
   */
  lemma {:induction false} SameContentIff(h: Hasher, b: Block, c: Block)
    requires HashOf(h, b) == HashOf(h, c) && RootsTrue(h, b)
    ensures Collides(h, FindInBlocks(h, b, c)) || (c.content == b.content <==> RootsTrue(h, c))
  {
    var x, y := FilledHeader(h, b), FilledHeader(h, c);
    RootBinds(h, Fields(x), Fields(y));
    hide Root;
    hide FindInLists;
    hide FindInContents;
    hide Collides;
    hide FilledHeader;
    if Fields(x) == Fields(y) {
      assert Fields(x)[5] == Fields(y)[5] && Fields(x)[6] == Fields(y)[6] && Fields(x)[9] == Fields(y)[9];
      if RootsTrue(h, c) {
        RootsBindContent(h, b.content, c.content);
      }
    }
  }

  /** The roots of a proposed C-block are true only if it ships no read data, or there is a collision. */
  lemma {:induction false} MadeRootsTrueIff(h: Hasher, header: Header, content: Content, datas: seq<Bytes>)
    requires header.bodyRoot == header.crossShardBodyRoot == header.relationRoot == []
    ensures var bare, full := content.(crossShardDatas := []), content.(crossShardDatas := datas);
            Collides(h, FindInContents(h, bare, full)) || (RootsTrue(h, Made(h, header, content, datas)) <==> datas == [])
  {
    var bare, full := content.(crossShardDatas := []), content.(crossShardDatas := datas);
    hide Root;
    hide FindInContents;
    hide Collides;
    if RootsTrue(h, Made(h, header, content, datas)) {
      RootsBindContent(h, bare, full);
    }
  }
}
