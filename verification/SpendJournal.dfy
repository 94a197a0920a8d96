/** The spend journal: the outputs a block spends, stored so that the block can be disconnected. */
module SpendJournal {
  import opened ChainTypes
  import opened Compress
  import Vlq

  datatype SpentTxOut = SpentTxOut(amount: int, script: seq<byte>, height: int, isCoinBase: bool)

  datatype Tx = Tx(version: int, inputs: seq<OutPoint>)

  const TX_VERSION_VDF_RESULT := 7

  /** What reading an entry yields. */
  datatype Entry = Stxos(stxos: seq<SpentTxOut>) | NoSerialization | CorruptEntry | WrappedEntry

  /** An output a chain can hold. */
  predicate Storable(o: SpentTxOut) {
    0 <= o.amount <= MAX_SATOSHI && |o.script| < MAX_SCRIPT && -0x8000_0000 <= o.height < 0x8000_0000
  }

  predicate AllStorable(stxos: seq<SpentTxOut>) {
    forall i :: 0 <= i < |stxos| ==> Storable(stxos[i])
  }

  // ---------------------------------------------------------------------------
  // One output
  // ---------------------------------------------------------------------------

  /** The height, widened to 64 bits and shifted over one bit, with the coinbase flag below it. */
  function HeaderCode(o: SpentTxOut): (code: nat)
    requires Storable(o)
    ensures code < Vlq.TWO_64
  {
    2 * o.height % Vlq.TWO_64 + if o.isCoinBase then 1 else 0
  }

  function AsInt32(x: nat): int {
    if x % 0x1_0000_0000 < 0x8000_0000 then x % 0x1_0000_0000 else x % 0x1_0000_0000 - 0x1_0000_0000
  }

  lemma HeaderCodeBack(o: SpentTxOut)
    requires Storable(o)
    ensures HeaderCode(o) % 2 == (if o.isCoinBase then 1 else 0) && AsInt32(HeaderCode(o) / 2) == o.height
  {
    if o.height < 0 {
      assert 2 * o.height % Vlq.TWO_64 == Vlq.TWO_64 + 2 * o.height;
    }
  }

  function Reserved(height: int): (bytes: seq<byte>) {
    if height > 0 then Vlq.Encode(0) else []
  }

  function EncodeStxo(c: Curve, o: SpentTxOut): (bytes: seq<byte>)
    requires Storable(o)
    ensures |bytes| > 0
  {
    Vlq.Encode(HeaderCode(o)) + (Reserved(o.height) + EncodeTxOut(c, o.amount, o.script))
  }

  function DecodeStxo(c: Curve, s: seq<byte>): (r: Decoded<SpentTxOut>)
    ensures r.Ok? ==> r.read <= |s|
  {
    if s == [] then Corrupt(0)
    else
      var (code, codeLen) := Vlq.Decode(s);
      if codeLen >= |s| then Corrupt(codeLen)
      else
        var height := AsInt32(code / 2);
        var offset := if height > 0 then codeLen + Vlq.Decode(s[codeLen..]).1 else codeLen;
        if offset >= |s| then Corrupt(offset)
        else
          match DecodeTxOut(c, s[offset..])
          case Ok((amount, script), n) => Ok(SpentTxOut(AsInt64(amount), script, height, code % 2 == 1), offset + n)
          case Corrupt(n) => Corrupt(offset + n)
          case Wrapped => Wrapped
  }

  lemma DecodeEncodeStxo(c: Curve, o: SpentTxOut, rest: seq<byte>)
    requires c.Sound() && Storable(o)
    ensures DecodeStxo(c, EncodeStxo(c, o) + rest) == Ok(o, |EncodeStxo(c, o)|)
  {
    hide Vlq.Encode, Vlq.Decode, HeaderCode, AsInt32, EncodeTxOut, DecodeTxOut;
    var code, txOut := HeaderCode(o), EncodeTxOut(c, o.amount, o.script);
    var head, mid := Vlq.Encode(code), Reserved(o.height);
    var all := EncodeStxo(c, o) + rest;
    assert all == head + (mid + (txOut + rest));
    Vlq.DecodeEncode(code, mid + (txOut + rest));
    HeaderCodeBack(o);
    assert all[|head|..] == mid + (txOut + rest);
    if o.height > 0 {
      Vlq.DecodeEncode(0, txOut + rest);
    }
    var offset := |head| + |mid|;
    assert all[offset..] == txOut + rest;
    DecodeEncodeTxOut(c, o.amount, o.script, rest);
    assert offset < |all|;
  }

  // ---------------------------------------------------------------------------
  // A block's entry
  // ---------------------------------------------------------------------------

  /** Outputs are stored in reverse, so that they are read as the block is undone. */
  function EncodeEntry(c: Curve, stxos: seq<SpentTxOut>): (bytes: seq<byte>)
    requires AllStorable(stxos)
    ensures stxos != [] ==> |bytes| > 0
  {
    if stxos == [] then [] else EncodeStxo(c, stxos[|stxos| - 1]) + EncodeEntry(c, stxos[..|stxos| - 1])
  }

  /** Reads `n` outputs, each one going in front of those read before. */
  function ReadBack(c: Curve, s: seq<byte>, n: nat, tail: seq<SpentTxOut>): (r: Entry)
    decreases n
  {
    if n == 0 then Stxos(tail)
    else
      match DecodeStxo(c, s)
      case Ok(o, read) => ReadBack(c, s[read..], n - 1, [o] + tail)
      case Corrupt(_) => CorruptEntry
      case Wrapped => WrappedEntry
  }

  /** Reading as many outputs as were written gives them back; reading more is always noticed. */
  lemma {:induction false} ReadBackEntry(c: Curve, stxos: seq<SpentTxOut>, n: nat, tail: seq<SpentTxOut>)
    requires c.Sound() && AllStorable(stxos) && n >= |stxos|
    ensures ReadBack(c, EncodeEntry(c, stxos), n, tail) == if n == |stxos| then Stxos(stxos + tail) else CorruptEntry
    decreases |stxos|
  {
    hide DecodeStxo, EncodeStxo;
    if stxos == [] {
      assert stxos + tail == tail;
      NothingToDecode(c);
    } else {
      var o, front := stxos[|stxos| - 1], stxos[..|stxos| - 1];
      var rest := EncodeEntry(c, front);
      DecodeEncodeStxo(c, o, rest);
      assert EncodeEntry(c, stxos)[|EncodeStxo(c, o)|..] == rest;
      ReadBackEntry(c, front, n - 1, [o] + tail);
      assert front + ([o] + tail) == stxos + tail;
    }
  }

  lemma NothingToDecode(c: Curve)
    ensures DecodeStxo(c, []) == Corrupt(0)
  {
  }

  function Inputs(txns: seq<Tx>): (n: nat) {
    if txns == [] then 0 else Inputs(txns[..|txns| - 1]) + |txns[|txns| - 1].inputs|
  }

  function ReadEntry(c: Curve, s: seq<byte>, txns: seq<Tx>): (r: Entry) {
    if s == [] && Inputs(txns) != 0 then NoSerialization else ReadBack(c, s, Inputs(txns), [])
  }

  // ---------------------------------------------------------------------------
  // Which inputs spend
  // ---------------------------------------------------------------------------

  /** The inputs that stand for a pool draw rather than for an output. */
  predicate Sentinel(o: OutPoint) {
    o.hash[..4] == [0x46, 0x44, 0x52, 0x50] && o.index == 0
  }

  function Spends(inputs: seq<OutPoint>): (n: nat)
    ensures n <= |inputs|
  {
    if inputs == [] then 0
    else Spends(inputs[..|inputs| - 1]) + if Sentinel(inputs[|inputs| - 1]) then 0 else 1
  }

  /** Outputs that transactions after the coinbase spend. */
  function SpentBy(txns: seq<Tx>): (n: nat) {
    if txns == [] then 0
    else
      var tx := txns[|txns| - 1];
      SpentBy(txns[..|txns| - 1]) + if tx.version == TX_VERSION_VDF_RESULT then 0 else Spends(tx.inputs)
  }

  predicate Kept(tx: Tx) {
    tx.version != TX_VERSION_VDF_RESULT && exists i :: 0 <= i < |tx.inputs| && !Sentinel(tx.inputs[i])
  }

  /** The transactions whose inputs the reader counts. */
  function KeptTxns(txns: seq<Tx>): (kept: seq<Tx>) {
    if txns == [] then []
    else KeptTxns(txns[..|txns| - 1]) + if Kept(txns[|txns| - 1]) then [txns[|txns| - 1]] else []
  }

  /** Some input of `tx` is a sentinel and another one is not. */
  predicate Mixed(tx: Tx) {
    Kept(tx) && exists i :: 0 <= i < |tx.inputs| && Sentinel(tx.inputs[i])
  }

  lemma {:induction false} SpendsFacts(inputs: seq<OutPoint>)
    ensures Spends(inputs) == 0 <==> forall i :: 0 <= i < |inputs| ==> Sentinel(inputs[i])
    ensures Spends(inputs) == |inputs| <==> forall i :: 0 <= i < |inputs| ==> !Sentinel(inputs[i])
  {
    hide Sentinel;
    if inputs != [] {
      SpendsFacts(inputs[..|inputs| - 1]);
    }
  }

  /** The reader never counts fewer outputs than were written, and counts more exactly when some transaction is mixed. */
  lemma {:induction false} KeptInputs(txns: seq<Tx>)
    ensures SpentBy(txns) <= Inputs(KeptTxns(txns))
    ensures SpentBy(txns) == Inputs(KeptTxns(txns)) <==> forall i :: 0 <= i < |txns| ==> !Mixed(txns[i])
    ensures SpentBy(txns) == 0 ==> Inputs(KeptTxns(txns)) == 0
  {
    hide Sentinel, Spends;
    if txns != [] {
      var front, tx := txns[..|txns| - 1], txns[|txns| - 1];
      KeptInputs(front);
      SpendsFacts(tx.inputs);
      if Kept(tx) {
        assert (KeptTxns(front) + [tx])[..|KeptTxns(front)|] == KeptTxns(front);
      } else {
        assert KeptTxns(txns) == KeptTxns(front);
      }
      assert SpentBy(txns) == SpentBy(front) + if tx.version == TX_VERSION_VDF_RESULT then 0 else Spends(tx.inputs);
      assert Mixed(tx) <==> Kept(tx) && Spends(tx.inputs) < |tx.inputs|;
    }
  }

  /** What the database gives back for a block's transactions (`txns` without the coinbase). */
  function Fetch(c: Curve, s: seq<byte>, txns: seq<Tx>): (r: Entry) {
    ReadEntry(c, s, KeptTxns(txns))
  }

  /**
   The entry written for a block is read back unchanged exactly when no transaction of the block
   mixes sentinel inputs with ordinary ones; otherwise reading reports corruption.
   */
  lemma FetchStored(c: Curve, stxos: seq<SpentTxOut>, txns: seq<Tx>)
    requires c.Sound() && AllStorable(stxos) && |stxos| == SpentBy(txns)
    ensures Fetch(c, EncodeEntry(c, stxos), txns) ==
            if exists i :: 0 <= i < |txns| && Mixed(txns[i]) then CorruptEntry else Stxos(stxos)
  {
    hide EncodeEntry, ReadBack, SpentBy, KeptTxns, Inputs, Mixed;
    KeptInputs(txns);
    ReadBackEntry(c, stxos, Inputs(KeptTxns(txns)), []);
    assert stxos + [] == stxos;
  }

  function Ordinary(inputs: seq<OutPoint>): (r: seq<OutPoint>)
    ensures |r| == Spends(inputs)
  {
    if inputs == [] then []
    else Ordinary(inputs[..|inputs| - 1]) + if Sentinel(inputs[|inputs| - 1]) then [] else [inputs[|inputs| - 1]]
  }

  /** The inputs that spend outputs, in the order in which the writer meets them. */
  function WriterOrder(txns: seq<Tx>): (r: seq<OutPoint>)
    ensures |r| == SpentBy(txns)
  {
    if txns == [] then []
    else
      var tx := txns[|txns| - 1];
      WriterOrder(txns[..|txns| - 1]) + if tx.version == TX_VERSION_VDF_RESULT then [] else Ordinary(tx.inputs)
  }

  /** The inputs to which the reader assigns the outputs of an entry, first to last. */
  function ReaderOrder(txns: seq<Tx>): (r: seq<OutPoint>)
    ensures |r| == Inputs(txns)
  {
    if txns == [] then [] else ReaderOrder(txns[..|txns| - 1]) + txns[|txns| - 1].inputs
  }

  lemma {:induction false} OrdinaryFacts(inputs: seq<OutPoint>)
    ensures (forall i :: 0 <= i < |inputs| ==> !Sentinel(inputs[i])) ==> Ordinary(inputs) == inputs
    ensures (forall i :: 0 <= i < |inputs| ==> Sentinel(inputs[i])) ==> Ordinary(inputs) == []
  {
    hide Sentinel;
    if inputs != [] {
      var front, last := inputs[..|inputs| - 1], inputs[|inputs| - 1];
      OrdinaryFacts(front);
      assert inputs == front + [last];
      assert Ordinary(inputs) == Ordinary(front) + if Sentinel(last) then [] else [last];
    }
  }

  /** Without mixed transactions every output that is read back is paired with the input that spent it. */
  lemma {:induction false} ReaderMeetsWriter(txns: seq<Tx>)
    requires forall i :: 0 <= i < |txns| ==> !Mixed(txns[i])
    ensures ReaderOrder(KeptTxns(txns)) == WriterOrder(txns)
  {
    hide Sentinel, Ordinary;
    if txns != [] {
      var front, tx := txns[..|txns| - 1], txns[|txns| - 1];
      ReaderMeetsWriter(front);
      OrdinaryFacts(tx.inputs);
      assert !Mixed(tx);
      if Kept(tx) {
        assert (KeptTxns(front) + [tx])[..|KeptTxns(front)|] == KeptTxns(front);
      } else {
        assert KeptTxns(txns) == KeptTxns(front);
      }
    }
  }

  /** A block can be laid out so that its own entry is unreadable. */
  lemma MixedBlockIsUnreadable(c: Curve, ordinary: OutPoint, o: SpentTxOut)
    requires c.Sound() && Storable(o) && !Sentinel(ordinary)
    ensures var sentinel := OutPoint([0x46, 0x44, 0x52, 0x50] + ZEROES[..28], 0);
            var txns := [Tx(1, [sentinel, ordinary])];
            SpentBy(txns) == 1 && Fetch(c, EncodeEntry(c, [o]), txns) == CorruptEntry
  {
    hide EncodeEntry, ReadBack, Fetch;
    var sentinel := OutPoint([0x46, 0x44, 0x52, 0x50] + ZEROES[..28], 0);
    var tx := Tx(1, [sentinel, ordinary]);
    assert tx.inputs[..1] == [sentinel];
    assert Sentinel(tx.inputs[0]) && !Sentinel(tx.inputs[1]);
    assert Spends(tx.inputs) == Spends([sentinel]) + 1;
    assert Spends([sentinel]) == 0;
    assert SpentBy([tx]) == SpentBy([]) + Spends(tx.inputs);
    assert Mixed([tx][0]);
    FetchStored(c, [o], [tx]);
  }

  // ---------------------------------------------------------------------------
  // The code
  // ---------------------------------------------------------------------------

  method CountSpentOutputs(txns: seq<Tx>) returns (numSpent: nat)
    ensures numSpent == SpentBy(txns)
  {
    hide Sentinel;
    numSpent := 0;
    for i := 0 to |txns|
      invariant numSpent == SpentBy(txns[..i])
    {
      assert txns[..i + 1][..i] == txns[..i];
      if txns[i].version == TX_VERSION_VDF_RESULT {
        continue;
      }
      var inputs := txns[i].inputs;
      ghost var before := numSpent;
      for j := 0 to |inputs|
        invariant numSpent == before + Spends(inputs[..j])
      {
        assert inputs[..j + 1][..j] == inputs[..j];
        if !Sentinel(inputs[j]) {
          numSpent := numSpent + 1;
        }
      }
      assert inputs[..|inputs|] == inputs;
    }
    assert txns[..|txns|] == txns;
  }

  method SelectTxns(txns: seq<Tx>) returns (blockTxns: seq<Tx>)
    ensures blockTxns == KeptTxns(txns)
  {
    hide Sentinel;
    blockTxns := [];
    for i := 0 to |txns|
      invariant blockTxns == KeptTxns(txns[..i])
    {
      assert txns[..i + 1][..i] == txns[..i];
      if txns[i].version == TX_VERSION_VDF_RESULT {
        continue;
      }
      var j, found := 0, false;
      while j < |txns[i].inputs| && !found
        invariant j <= |txns[i].inputs|
        invariant found <==> exists k :: 0 <= k < j && !Sentinel(txns[i].inputs[k])
      {
        found := !Sentinel(txns[i].inputs[j]);
        j := j + 1;
      }
      if found {
        blockTxns := blockTxns + [txns[i]];
      }
    }
    assert txns[..|txns|] == txns;
  }

  method SerializeSize(c: Curve, o: SpentTxOut) returns (size: nat)
    requires Storable(o)
    ensures size == |EncodeStxo(c, o)|
  {
    hide Vlq.Encode, EncodeTxOut;
    size := Vlq.SerializeSize(HeaderCode(o));
    if o.height > 0 {
      var reserved := Vlq.SerializeSize(0);
      size := size + reserved;
    }
    var txOut := CompressedTxOutSize(c, o.amount, o.script);
    size := size + txOut;
  }

  method PutStxo(c: Curve, target: array<byte>, off: nat, o: SpentTxOut) returns (size: nat)
    requires Storable(o) && off + |EncodeStxo(c, o)| <= target.Length
    modifies target
    ensures size == |EncodeStxo(c, o)|
    ensures target[..] == Vlq.Overwrite(old(target[..]), off, EncodeStxo(c, o))
  {
    hide Vlq.Encode, Vlq.Overwrite, EncodeTxOut, HeaderCode, Reserved;
    ghost var was, head, mid := target[..], Vlq.Encode(HeaderCode(o)), Reserved(o.height);
    ghost var txOut := EncodeTxOut(c, o.amount, o.script);
    size := Vlq.Put(target, off, HeaderCode(o));
    ghost var first := target[..];
    var reserved := PutReserved(target, off + size, o.height);
    size := size + reserved;
    var tail := PutCompressedTxOut(c, target, off + size, o.amount, o.script);
    size := size + tail;
    Vlq.OverwriteTwice(first, off + |head|, mid, txOut);
    Vlq.OverwriteTwice(was, off, head, mid + txOut);
  }

  /** The reserved byte, which is there above height zero only. */
  method PutReserved(target: array<byte>, off: nat, height: int) returns (size: nat)
    requires off + |Reserved(height)| <= target.Length
    modifies target
    ensures size == |Reserved(height)| && target[..] == Vlq.Overwrite(old(target[..]), off, Reserved(height))
  {
    hide Vlq.Encode, Vlq.Overwrite;
    if height > 0 {
      size := Vlq.Put(target, off, 0);
    } else {
      Vlq.OverwriteNothing(target[..], off);
      size := 0;
    }
  }

  /** Writes the entry of a block: sizes first, then the outputs in reverse. */
  method SerializeEntry(c: Curve, stxos: seq<SpentTxOut>) returns (serialized: array<byte>)
    requires AllStorable(stxos)
    ensures fresh(serialized) && serialized[..] == EncodeEntry(c, stxos)
  {
    hide EncodeStxo, Storable;
    var size := 0;
    for i := 0 to |stxos|
      invariant size == |EncodeEntry(c, stxos[..i])|
    {
      assert stxos[..i + 1][..i] == stxos[..i];
      var n := SerializeSize(c, stxos[i]);
      size := size + n;
    }
    assert stxos[..|stxos|] == stxos;
    serialized := new byte[size];
    var offset, i := 0, |stxos|;
    while i > 0
      invariant 0 <= i <= |stxos| && 0 <= offset && offset + |EncodeEntry(c, stxos[..i])| == size == serialized.Length
      invariant serialized[..offset] + EncodeEntry(c, stxos[..i]) == EncodeEntry(c, stxos)
    {
      i := i - 1;
      assert stxos[..i + 1][..i] == stxos[..i];
      ghost var done := serialized[..offset];
      var n := PutStxo(c, serialized, offset, stxos[i]);
      assert serialized[..offset + n] == done + EncodeStxo(c, stxos[i]);
      Vlq.Assoc(done, EncodeStxo(c, stxos[i]), EncodeEntry(c, stxos[..i]));
      offset := offset + n;
    }
    assert serialized[..offset] == serialized[..];
  }

  /** Reads an entry backwards through the inputs of the transactions. */
  method DeserializeEntry(c: Curve, serialized: seq<byte>, txns: seq<Tx>) returns (r: Entry)
    ensures r == ReadEntry(c, serialized, txns)
  {
    hide DecodeStxo;
    var numStxos := 0;
    for i := 0 to |txns|
      invariant numStxos == Inputs(txns[..i])
    {
      assert txns[..i + 1][..i] == txns[..i];
      numStxos := numStxos + |txns[i].inputs|;
    }
    assert txns[..|txns|] == txns;
    if serialized == [] {
      return if numStxos != 0 then NoSerialization else Stxos([]);
    }
    var stxos := new SpentTxOut[numStxos](_ => SpentTxOut(0, [], 0, false));
    var left, offset, txIdx := numStxos, 0, |txns|;
    assert serialized[0..] == serialized && stxos[numStxos..] == [];
    while txIdx > 0
      invariant 0 <= txIdx <= |txns| && 0 <= left <= numStxos && offset <= |serialized|
      invariant left == Inputs(txns[..txIdx])
      invariant ReadBack(c, serialized, numStxos, []) == ReadBack(c, serialized[offset..], left, stxos[left..])
    {
      txIdx := txIdx - 1;
      assert txns[..txIdx + 1][..txIdx] == txns[..txIdx];
      var txInIdx := |txns[txIdx].inputs|;
      while txInIdx > 0
        invariant 0 <= txInIdx && 0 <= left <= numStxos && offset <= |serialized|
        invariant left == Inputs(txns[..txIdx]) + txInIdx
        invariant ReadBack(c, serialized, numStxos, []) == ReadBack(c, serialized[offset..], left, stxos[left..])
      {
        txInIdx := txInIdx - 1;
        ghost var tail, s := stxos[left..], serialized[offset..];
        left := left - 1;
        match DecodeStxo(c, serialized[offset..]) {
          case Ok(o, n) =>
            stxos[left] := o;
            assert stxos[left..] == [o] + tail;
            assert s[n..] == serialized[offset + n..];
            offset := offset + n;
          case Corrupt(_) => return CorruptEntry;
          case Wrapped => return WrappedEntry;
        }
      }
    }
    return Stxos(stxos[..]);
  }
}
