/**
 Block nodes: the in-memory tree of headers, linked by parent pointers and by one skip
 pointer per node.
 */
module BlockTree {
  import opened ChainTypes
  import opened SkipHeights

  /** Bits of a node's status byte. */
  const STATUS_DATA_STORED: bv8 := 1
  const STATUS_VALID: bv8 := 2
  const STATUS_VALIDATE_FAILED: bv8 := 4
  const STATUS_INVALID_ANCESTOR: bv8 := 8
  const STATUS_HEADER_STORED: bv8 := 16

  predicate HaveData(status: bv8) { status & STATUS_DATA_STORED != 0 }

  predicate HaveHeader(status: bv8) { status & STATUS_HEADER_STORED != 0 }

  predicate KnownInvalid(status: bv8) { status & (STATUS_VALIDATE_FAILED | STATUS_INVALID_ANCESTOR) != 0 }

  class BlockNode {
    const parent: BlockNode?
    const ancestor: BlockNode?
    const hash: Hash
    const workSum: nat
    const height: nat
    const version: int
    const bits: uint32
    const nonce: uint32
    const timestamp: int
    const merkleRoot: Hash
    var status: bv8

    /** The parent chain, from the root up to and including this node. */
    ghost function Branch(): (nodes: seq<BlockNode>)
      ensures |nodes| > 0 && nodes[|nodes| - 1] == this
      decreases height
    {
      if parent == null || parent.height >= height then [this] else parent.Branch() + [this]
    }

    /** The node and all its ancestors carry the height, work and skip pointer their parents give them. */
    ghost predicate Linked()
      decreases height
    {
      if parent == null then
        height == 0 && ancestor == null && workSum == CalcWork(bits)
      else
        && parent.height == height - 1
        && parent.Linked()
        && workSum == parent.workSum + CalcWork(bits)
        && GetAncestorHeight(height) < |parent.Branch()|
        && ancestor == parent.Branch()[GetAncestorHeight(height)]
    }

    /** Creates a node from a header and its parent. */
    constructor (blockHash: Header -> Hash, header: Header, parent: BlockNode?)
      requires parent != null ==> parent.Linked() && parent.height < MAX_INT32
      ensures Linked()
      ensures this.parent == parent && hash == blockHash(header) && status == 0
      ensures version == header.version && merkleRoot == header.merkleRoot && timestamp == header.timestamp
      ensures bits == header.bits && nonce == header.nonce
    {
      hide *;
      hash := blockHash(header);
      version := header.version;
      bits := header.bits;
      nonce := header.nonce;
      timestamp := header.timestamp;
      merkleRoot := header.merkleRoot;
      status := 0;
      this.parent := parent;
      if parent == null {
        height := 0;
        workSum := CalcWork(header.bits);
        ancestor := null;
      } else {
        height := parent.height + 1;
        workSum := parent.workSum + CalcWork(header.bits);
        AncestorHeightDecreases(parent.height + 1);
        BranchShape(parent);
        var skip := parent.Ancestor(GetAncestorHeight(parent.height + 1));
        ancestor := skip;
      }
      new;
      LinkUp(this);
    }

    /** The header this node was made from. */
    function Header(): (header: Header) {
      ChainTypes.Header(version, if parent == null then ZERO_HASH else parent.hash, merkleRoot, timestamp, bits, nonce)
    }

    /** All fields but the two pointers agree. */
    predicate Equals(other: BlockNode)
      reads this, other
    {
      && hash == other.hash && workSum == other.workSum && height == other.height && version == other.version
      && bits == other.bits && nonce == other.nonce && timestamp == other.timestamp
      && merkleRoot == other.merkleRoot && status == other.status
    }

    /** Whether `other` is a proper ancestor; decided by comparing fields, hence exact when hashes identify nodes. */
    method IsAncestor(other: BlockNode?) returns (yes: bool)
      requires Linked()
      ensures yes ==> other != null && exists i :: 0 <= i < height && i < |Branch()| && Branch()[i].Equals(other)
      ensures other == null ==> !yes
      ensures other != null && (forall i :: 0 <= i < |Branch()| && Branch()[i].hash == other.hash ==> Branch()[i] == other) ==>
                (yes <==> other in Branch() && other != this)
    {
      hide Branch, Linked;
      if other == null {
        return false;
      }
      BranchShape(this);
      var ancestor := Ancestor(other.height);
      if ancestor == null {
        return false;
      }
      BranchPrefix(this, other.height);
      if height == ancestor.height {
        assert other in Branch() ==> other == Branch()[other.height];
        return false;
      }
      return ancestor.Equals(other);
    }

    /** The headers of the branch, from the root's to this node's. */
    ghost function Path(): (headers: seq<Header>)
      ensures |headers| > 0 && headers[|headers| - 1] == Header()
      decreases height
    {
      if parent == null || parent.height >= height then [Header()] else parent.Path() + [Header()]
    }

    /** The ancestor at a height, or none outside the branch. */
    method Ancestor(height: int) returns (node: BlockNode?)
      requires Linked()
      ensures height < 0 || height > this.height ==> node == null
      ensures 0 <= height <= this.height ==> height < |Branch()| && node == Branch()[height]
    {
      var found, _ := WalkBack(height);
      return found;
    }

    /**
     Finds the ancestor at a height by following skip pointers where they do not overshoot.
     `steps` counts the iterations.
     */
    method WalkBack(height: int) returns (node: BlockNode?, ghost steps: nat)
      requires Linked()
      ensures height < 0 || height > this.height ==> node == null && steps == 0
      ensures 0 <= height <= this.height ==>
                && height < |Branch()| && node == Branch()[height]
                && steps == WalkLength(this.height, height)
    {
      hide *;
      steps := 0;
      if height < 0 || height > this.height {
        return null, 0;
      }
      BranchShape(this);
      var n: BlockNode? := this;
      while n != null && n.height != height
        invariant n != null && n.Linked() && height <= n.height <= this.height
        invariant |Branch()| == this.height + 1 && n == Branch()[n.height]
        invariant steps + WalkLength(n.height, height) == WalkLength(this.height, height)
        decreases if n == null then 0 else n.height
      {
        SkipPointer(n);
        BranchPrefix(this, n.height);
        WalkStep(n.height, height, GetAncestorHeight(n.height));
        steps := steps + 1;
        if n.ancestor != null {
          if GetAncestorHeight(n.height) >= height {
            n := n.ancestor;
            continue;
          }
        }
        n := n.parent;
      }
      WalkDone(height);
      return n, steps;
    }
  }

  /** A node initialized from its parent is linked. */
  lemma LinkUp(node: BlockNode)
    requires node.parent == null ==> node.height == 0 && node.ancestor == null && node.workSum == CalcWork(node.bits)
    requires node.parent != null ==>
               && node.parent.Linked() && node.height == node.parent.height + 1
               && node.workSum == node.parent.workSum + CalcWork(node.bits)
               && GetAncestorHeight(node.height) < |node.parent.Branch()|
               && node.ancestor == node.parent.Branch()[GetAncestorHeight(node.height)]
    ensures node.Linked()
  {
    hide CalcWork, GetAncestorHeight;
  }

  /** Along a linked branch every node sits at its own height, under its own branch. */
  lemma {:induction false} BranchShape(node: BlockNode)
    requires node.Linked()
    ensures |node.Branch()| == node.height + 1
    ensures forall i :: 0 <= i <= node.height ==>
              node.Branch()[i].height == i && node.Branch()[i].Linked() && node.Branch()[i].Branch() == node.Branch()[..i + 1]
    decreases node.height
  {
    if node.parent != null {
      BranchShape(node.parent);
    }
  }

  lemma BranchPrefix(node: BlockNode, i: nat)
    requires node.Linked() && i <= node.height
    ensures |node.Branch()| == node.height + 1
    ensures node.Branch()[i].height == i && node.Branch()[i].Linked()
    ensures node.Branch()[i].Branch() == node.Branch()[..i + 1]
  {
    BranchShape(node);
  }

  /** Every node but the root has a skip pointer, and it points where the height says. */
  lemma SkipPointer(node: BlockNode)
    requires node.Linked() && node.height > 0
    ensures GetAncestorHeight(node.height) < node.height == |node.Branch()| - 1
    ensures node.parent != null && node.parent == node.Branch()[node.height - 1]
    ensures node.parent.height == node.height - 1 && node.parent.Linked()
    ensures node.ancestor != null && node.ancestor == node.Branch()[GetAncestorHeight(node.height)]
    ensures node.ancestor.height == GetAncestorHeight(node.height) && node.ancestor.Linked()
  {
    hide CalcWork, GetAncestorHeight;
    AncestorHeightDecreases(node.height);
    BranchShape(node.parent);
  }

  lemma {:induction false} PathShape(node: BlockNode)
    requires node.Linked()
    ensures |node.Path()| == node.height + 1 == |node.Branch()|
    ensures forall i :: 0 <= i <= node.height ==> node.Branch()[i].Path() == node.Path()[..i + 1]
    decreases node.height
  {
    hide GetAncestorHeight, CalcWork;
    if node.parent != null {
      PathShape(node.parent);
    }
  }

  /** The headers of a branch determine everything a node computes from its ancestors. */
  lemma {:induction false} SamePath(node: BlockNode, other: BlockNode)
    requires node.Linked() && other.Linked() && node.Path() == other.Path()
    ensures node.height == other.height && node.workSum == other.workSum && node.Header() == other.Header()
    ensures (node.parent == null) == (other.parent == null) == (node.ancestor == null) == (other.ancestor == null)
    ensures node.parent != null ==>
              && node.parent.Path() == other.parent.Path()
              && node.ancestor.height == other.ancestor.height && node.ancestor.Path() == other.ancestor.Path()
    decreases node.height
  {
    hide GetAncestorHeight, CalcWork;
    PathShape(node);
    PathShape(other);
    if node.parent != null {
      SkipPointer(node);
      SkipPointer(other);
      assert node.Path()[..node.height] == node.parent.Path();
      assert other.Path()[..node.height] == other.parent.Path();
      SamePath(node.parent, other.parent);
    }
  }
}
