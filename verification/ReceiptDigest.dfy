/**
 The canonical preimage of the digest that binds a publish receipt to its outputs, and its decoder.
 The hash itself is a parameter.
 */
module ReceiptDigest {
  import opened Characters
  import opened Octets
  import opened Wrappers

  /** "cadplot-receipt-outputs-v1" and a zero byte. */
  const RECEIPT_OUTPUT_DOMAIN: Bytes := [
    99, 97, 100, 112, 108, 111, 116, 45, 114, 101, 99, 101, 105, 112, 116, 45, 111, 117, 116, 112, 117, 116, 115, 45, 118, 49, 0]

  const TWO_TO_63: int := 0x8000_0000_0000_0000

  datatype Output = Output(sheetIndex: int, file: Text, sizeBytes: int, sha256: string)

  datatype ReceiptError = InvalidCount | InvalidItem | NotEncodable | IndexTooLarge

  /** What the path library says of a name: that it is its own last component and ends in `.pdf`. */
  type NameRule = Text -> bool

  predicate Admissible(item: Output, plain: NameRule) {
    && item.sheetIndex >= 1
    && item.file != [] && plain(item.file)
    && (forall i :: 0 <= i < |item.file| ==> item.file[i] >= 32 && item.file[i] != 127)
    && 1 <= item.sizeBytes < TWO_TO_63
    && |item.sha256| == 64 && HexText(item.sha256)
  }

  /** What goes wrong with one item, in the order in which the source notices. */
  function ItemProblem(item: Output, plain: NameRule): Option<ReceiptError> {
    if !Admissible(item, plain) then Some(InvalidItem)
    else if !AllEncodable(item.file) then Some(NotEncodable)
    else if item.sheetIndex >= TWO_TO_63 then Some(IndexTooLarge)
    else None
  }

  predicate Packable(item: Output) {
    && 0 <= item.sheetIndex < TWO_TO_63 && AllEncodable(item.file) && 0 <= item.sizeBytes < TWO_TO_63
    && |item.sha256| == 64 && HexText(item.sha256) && |Utf8(item.file)| < TWO_TO_63
  }

  /** `struct.pack(">q", x)`. */
  function Packed(x: int): (b: Bytes)
    requires 0 <= x < TWO_TO_63
    ensures |b| == 8
  {
    BigEndian(8, x)
  }

  function ItemBytes(item: Output): Bytes
    requires Packable(item)
  {
    var name := Utf8(item.file);
    Packed(item.sheetIndex) + (Packed(|name|) + (name + (Packed(item.sizeBytes) + FromHex(item.sha256))))
  }

  predicate AllPackable(items: seq<Output>) {
    forall i :: 0 <= i < |items| ==> Packable(items[i])
  }

  function ItemsBytes(items: seq<Output>): Bytes
    requires AllPackable(items)
  {
    if items == [] then [] else ItemsBytes(items[..|items| - 1]) + ItemBytes(items[|items| - 1])
  }

  function Header(count: nat): Bytes
    requires count < TWO_TO_63
  {
    RECEIPT_OUTPUT_DOMAIN + Packed(count)
  }

  /** The preimage of the digest. */
  function Preimage(items: seq<Output>): Bytes
    requires AllPackable(items) && |items| < TWO_TO_63
  {
    Header(|items|) + ItemsBytes(items)
  }

  /** The first item that is refused decides the error. */
  ghost predicate FirstProblem(items: seq<Output>, plain: NameRule, error: ReceiptError) {
    exists i :: 0 <= i < |items| && ItemProblem(items[i], plain) == Some(error)
             && forall j :: 0 <= j < i ==> ItemProblem(items[j], plain).None?
  }

  lemma {:induction false} Utf8Length(s: seq<int>)
    requires AllEncodable(s)
    ensures |Utf8(s)| <= 4 * |s|
  {
    if s != [] {
      Utf8Length(s[1..]);
    }
  }

  /** One item after what was digested before. */
  method DigestItem(before: Bytes, item: Output) returns (digested: Bytes)
    requires Packable(item)
    ensures digested == before + ItemBytes(item)
  {
    hide Utf8, FromHex, HexText, Packed;
    var name := Utf8(item.file);
    digested := before + Packed(item.sheetIndex);
    digested := digested + Packed(|name|);
    digested := digested + name;
    digested := digested + Packed(item.sizeBytes);
    digested := digested + FromHex(item.sha256);
    assert digested == before + ItemBytes(item);
  }

  lemma NoProblemPacks(item: Output, plain: NameRule)
    requires 4 * |item.file| < TWO_TO_63
    ensures ItemProblem(item, plain).None? <==> Admissible(item, plain) && Packable(item)
  {
    if AllEncodable(item.file) {
      Utf8Length(item.file);
    }
  }

  /** The first `i` items are fine and have been digested. */
  ghost predicate DigestedTo(outputs: seq<Output>, plain: NameRule, i: nat, digested: Bytes) {
    && i <= |outputs| < TWO_TO_63
    && (forall j :: 0 <= j < i ==> ItemProblem(outputs[j], plain).None?)
    && AllPackable(outputs[..i]) && digested == Header(|outputs|) + ItemsBytes(outputs[..i])
  }

  lemma NothingDigested(outputs: seq<Output>, plain: NameRule, digested: Bytes)
    requires |outputs| < TWO_TO_63 && digested == Header(|outputs|)
    ensures DigestedTo(outputs, plain, 0, digested)
  {
    assert outputs[..0] == [];
  }

  lemma ItemsTurn(outputs: seq<Output>, plain: NameRule, i: nat, digested: Bytes)
    requires DigestedTo(outputs, plain, i, digested) && i < |outputs| && Packable(outputs[i])
    requires ItemProblem(outputs[i], plain).None?
    ensures DigestedTo(outputs, plain, i + 1, digested + ItemBytes(outputs[i]))
  {
    hide Packable, ItemBytes, ItemProblem, Header;
    var longer := outputs[..i + 1];
    assert longer[..i] == outputs[..i] && longer[i] == outputs[i];
    forall j | 0 <= j < |longer| ensures Packable(longer[j]) {
      assert j < i ==> longer[j] == outputs[..i][j];
    }
  }

  lemma ProblemAt(outputs: seq<Output>, plain: NameRule, i: nat, digested: Bytes, error: ReceiptError)
    requires DigestedTo(outputs, plain, i, digested) && i < |outputs| && ItemProblem(outputs[i], plain) == Some(error)
    ensures FirstProblem(outputs, plain, error)
  {
  }

  lemma AllDigested(outputs: seq<Output>, plain: NameRule, digested: Bytes)
    requires DigestedTo(outputs, plain, |outputs|, digested)
    ensures AllPackable(outputs) && digested == Preimage(outputs)
    ensures forall item :: item in outputs ==> ItemProblem(item, plain).None?
  {
    assert outputs[..|outputs|] == outputs;
  }

  /** The digest input, built item by item. A name that is too long for a machine word does not exist. */
  method BuildPreimage(outputs: seq<Output>, plain: NameRule) returns (preimage: Result<Bytes, ReceiptError>)
    requires forall item :: item in outputs ==> 4 * |item.file| < TWO_TO_63
    ensures !(1 <= |outputs| <= 5000) ==> preimage == Err(InvalidCount)
    ensures 1 <= |outputs| <= 5000 && preimage.Err? ==> FirstProblem(outputs, plain, preimage.error)
    ensures preimage.Ok? ==> forall item :: item in outputs ==> ItemProblem(item, plain).None?
    ensures preimage.Ok? ==> AllPackable(outputs) && preimage.value == Preimage(outputs)
  {
    if !(1 <= |outputs| <= 5000) {
      return Err(InvalidCount);
    }
    var digested := Header(|outputs|);
    NothingDigested(outputs, plain, digested);
    hide ItemProblem, Packable, ItemBytes, Packed, Header, DigestedTo, FirstProblem;
    for i := 0 to |outputs|
      invariant DigestedTo(outputs, plain, i, digested)
    {
      var problem := CheckItem(outputs[i], plain);
      if problem.Some? {
        ProblemAt(outputs, plain, i, digested, problem.value);
        return Err(problem.value);
      }
      NoProblemPacks(outputs[i], plain);
      ItemsTurn(outputs, plain, i, digested);
      digested := DigestItem(digested, outputs[i]);
    }
    AllDigested(outputs, plain, digested);
    return Ok(digested);
  }

  /** Refusals in the order of the source: the checks, the encoding, the packing. */
  method CheckItem(item: Output, plain: NameRule) returns (problem: Option<ReceiptError>)
    ensures problem == ItemProblem(item, plain)
  {
    if item.sheetIndex < 1 || item.file == [] || !plain(item.file) {
      return Some(InvalidItem);
    }
    for i := 0 to |item.file|
      invariant forall j :: 0 <= j < i ==> item.file[j] >= 32 && item.file[j] != 127
    {
      if item.file[i] < 32 || item.file[i] == 127 {
        return Some(InvalidItem);
      }
    }
    if !(1 <= item.sizeBytes < TWO_TO_63) || |item.sha256| != 64 || !HexText(item.sha256) {
      return Some(InvalidItem);
    }
    if !AllEncodable(item.file) {
      return Some(NotEncodable);
    }
    return if item.sheetIndex >= TWO_TO_63 then Some(IndexTooLarge) else None;
  }

  /* ------------------------------------------------------------ the decoder */

  function TakeInt(b: Bytes): Option<(nat, Bytes)> {
    if |b| < 8 then None else Some((FromBigEndian(b[..8]), b[8..]))
  }

  datatype Decoded = Decoded(sheetIndex: nat, file: seq<int>, sizeBytes: nat, sha256: string)

  function TakeItem(b: Bytes): Option<(Decoded, Bytes)> {
    var index := TakeInt(b);
    if index.None? then None else
    var length := TakeInt(index.value.1);
    if length.None? || |length.value.1| < length.value.0 then None else
    var name := FromUtf8(length.value.1[..length.value.0]);
    var size := TakeInt(length.value.1[length.value.0..]);
    if name.None? || size.None? || |size.value.1| < 32 then None
    else Some((Decoded(index.value.0, name.value, size.value.0, ToHex(size.value.1[..32])), size.value.1[32..]))
  }

  function TakeItems(b: Bytes, count: nat): Option<seq<Decoded>> {
    if count == 0 then (if b == [] then Some([]) else None)
    else
      var first := TakeItem(b);
      if first.None? then None
      else
        var rest := TakeItems(first.value.1, count - 1);
        if rest.None? then None else Some([first.value.0] + rest.value)
  }

  function Decode(b: Bytes): Option<seq<Decoded>> {
    if !(RECEIPT_OUTPUT_DOMAIN <= b) then None
    else
      var count := TakeInt(b[|RECEIPT_OUTPUT_DOMAIN|..]);
      if count.None? then None else TakeItems(count.value.1, count.value.0)
  }

  /** An item as the decoder returns it. */
  function View(item: Output): Decoded
    requires item.sheetIndex >= 0 && item.sizeBytes >= 0
  {
    Decoded(item.sheetIndex, item.file, item.sizeBytes, item.sha256)
  }

  function Views(items: seq<Output>): seq<Decoded>
    requires AllPackable(items)
  {
    seq(|items|, i requires 0 <= i < |items| => View(items[i]))
  }

  lemma Powers()
    ensures Pow256(8) == 2 * TWO_TO_63
  {
    assert Pow256(4) == 0x1_0000_0000 by {
      assert Pow256(2) == 0x1_0000;
    }
    assert Pow256(6) == 0x1_0000_0000_0000;
  }

  lemma TakePacked(x: int, rest: Bytes)
    requires 0 <= x < TWO_TO_63
    ensures TakeInt(Packed(x) + rest) == Some((x, rest))
  {
    Powers();
    BigEndianInverse(8, x);
    assert (Packed(x) + rest)[..8] == Packed(x) && (Packed(x) + rest)[8..] == rest;
  }

  lemma TakePackedItem(item: Output, rest: Bytes)
    requires Packable(item)
    ensures TakeItem(ItemBytes(item) + rest) == Some((View(item), rest))
  {
    var name, hash := Utf8(item.file), FromHex(item.sha256);
    var afterSize := hash + rest;
    var afterName := Packed(item.sizeBytes) + afterSize;
    var afterLength := name + afterName;
    var afterIndex := Packed(|name|) + afterLength;
    assert ItemBytes(item) + rest == Packed(item.sheetIndex) + afterIndex;
    TakePacked(item.sheetIndex, afterIndex);
    TakePacked(|name|, afterLength);
    assert afterLength[..|name|] == name && afterLength[|name|..] == afterName;
    Utf8Inverse(item.file);
    TakePacked(item.sizeBytes, afterSize);
    assert afterSize[..32] == hash && afterSize[32..] == rest;
    HexInverse(item.sha256);
    hide TakeInt, Packed, FromUtf8, FromHex, ToHex, Utf8;
  }

  /** From the front: what the encoder appends item by item. */
  lemma ItemsAppend(init: seq<Output>, last: Output)
    requires AllPackable(init + [last])
    ensures AllPackable(init) && Packable(last) && ItemsBytes(init + [last]) == ItemsBytes(init) + ItemBytes(last)
  {
    var items := init + [last];
    assert items[..|init|] == init && items[|init|] == last;
    assert forall i :: 0 <= i < |init| ==> items[i] == init[i];
    hide ItemBytes, Packable;
  }

  lemma {:induction false} FirstItem(items: seq<Output>)
    requires AllPackable(items) && items != []
    ensures ItemsBytes(items) == ItemBytes(items[0]) + ItemsBytes(items[1..])
  {
    hide ItemBytes, Packable;
    if |items| == 1 {
      assert items[..0] == [] && items[1..] == [];
    } else {
      var init, last, middle := items[..|items| - 1], items[|items| - 1], items[1..|items| - 1];
      assert items == init + [last] && items[1..] == middle + [last] && init[1..] == middle;
      hide ItemsBytes, AllPackable;
      ItemsAppend(init, last);
      FirstItem(init);
      ItemsAppend(middle, last);
    }
  }

  lemma FirstView(items: seq<Output>)
    requires AllPackable(items) && items != []
    ensures Views(items) == [View(items[0])] + Views(items[1..])
  {
    hide View;
  }

  lemma {:induction false} TakePackedItems(items: seq<Output>)
    requires AllPackable(items)
    ensures TakeItems(ItemsBytes(items), |items|) == Some(Views(items))
  {
    hide TakeItem, ItemBytes, Packable, View;
    if items == [] {
      assert Views(items) == [];
    } else {
      FirstItem(items);
      TakePackedItem(items[0], ItemsBytes(items[1..]));
      TakePackedItems(items[1..]);
      FirstView(items);
    }
  }

  /** The decoder inverts the encoding. */
  lemma DecodesPreimage(items: seq<Output>)
    requires AllPackable(items) && |items| < TWO_TO_63
    ensures Decode(Preimage(items)) == Some(Views(items))
  {
    var rest := Packed(|items|) + ItemsBytes(items);
    assert Preimage(items) == RECEIPT_OUTPUT_DOMAIN + rest;
    assert Preimage(items)[|RECEIPT_OUTPUT_DOMAIN|..] == rest;
    TakePacked(|items|, ItemsBytes(items));
    TakePackedItems(items);
    hide TakeInt, TakeItems, ItemsBytes, Packed;
  }

  /** Equal preimages come from equal output lists, in the same order. */
  lemma PreimageInjective(a: seq<Output>, b: seq<Output>)
    requires AllPackable(a) && |a| < TWO_TO_63 && AllPackable(b) && |b| < TWO_TO_63
    requires Preimage(a) == Preimage(b)
    ensures a == b
  {
    DecodesPreimage(a);
    DecodesPreimage(b);
    assert |a| == |Views(a)| == |Views(b)| == |b|;
    forall i | 0 <= i < |a| ensures a[i] == b[i] {
      assert Views(a)[i] == Views(b)[i];
    }
  }

  /* ------------------------------------------------------------ what a receipt binds */

  datatype Receipt = Receipt(succeeded: bool, outputCount: int, outputsSha256: string)

  /** The binding that the audit verifies; `digest` is the hash as a function of the preimage. */
  predicate Binds(receipt: Receipt, outputs: seq<Output>, plain: NameRule, digest: Bytes -> string) {
    && receipt.succeeded && receipt.outputCount == |outputs|
    && 1 <= |outputs| <= 5000 && AllPackable(outputs)
    && (forall item :: item in outputs ==> Admissible(item, plain))
    && receipt.outputsSha256 == digest(Preimage(outputs))
  }

  /** With a hash that does not collide, a receipt is verified for one ordered list of outputs only. */
  lemma ReceiptBindsOneList(receipt: Receipt, a: seq<Output>, b: seq<Output>, plain: NameRule, digest: Bytes -> string)
    requires forall x, y :: digest(x) == digest(y) ==> x == y
    requires Binds(receipt, a, plain, digest) && Binds(receipt, b, plain, digest)
    ensures a == b
  {
    PreimageInjective(a, b);
  }

  /* ------------------------------------------------------------ the checks and the constants, written out */

  predicate ProperName(file: Text, plain: NameRule) {
    file != [] && plain(file) && forall i :: 0 <= i < |file| ==> 32 <= file[i] && file[i] != 127
  }

  predicate ProperDigest(sha256: string) {
    |sha256| == 64 && forall c :: c in sha256 ==> '0' <= c <= '9' || 'a' <= c <= 'f'
  }

  /** An item is invalid exactly when a field is out of its range; a valid one can still have a surrogate in its name or too large an index. */
  lemma ItemMeans(item: Output, plain: NameRule)
    ensures var proper := && item.sheetIndex >= 1 && ProperName(item.file, plain)
                          && 1 <= item.sizeBytes <= 0x7FFF_FFFF_FFFF_FFFF && ProperDigest(item.sha256);
            var surrogate := exists i :: 0 <= i < |item.file| && 0xD800 <= item.file[i] <= 0xDFFF;
            ItemProblem(item, plain) ==
              if !proper then Some(InvalidItem)
              else if surrogate then Some(NotEncodable)
              else if item.sheetIndex > 0x7FFF_FFFF_FFFF_FFFF then Some(IndexTooLarge)
              else None
  {
    assert HexText(item.sha256) <==> forall c :: c in item.sha256 ==> '0' <= c <= '9' || 'a' <= c <= 'f' by {
      assert forall i :: 0 <= i < |item.sha256| ==> item.sha256[i] in item.sha256;
    }
    assert AllEncodable(item.file) <==> forall i :: 0 <= i < |item.file| ==> !(0xD800 <= item.file[i] <= 0xDFFF);
    hide HexText, AllEncodable;
  }

  lemma DomainMeans()
    ensures |RECEIPT_OUTPUT_DOMAIN| == 27 && RECEIPT_OUTPUT_DOMAIN[26] == 0
    ensures forall i :: 0 <= i < 26 ==> RECEIPT_OUTPUT_DOMAIN[i] == "cadplot-receipt-outputs-v1"[i] as int
  {
  }

  lemma StartsWith(a: Bytes, b: Bytes, c: Bytes)
    ensures (a + b + c)[|a|..|a| + |b|] == b && forall i :: 0 <= i < |a| ==> (a + b + c)[i] == a[i]
  {
  }

  lemma EightBytes(x: nat)
    requires x < TWO_TO_63
    ensures FromBigEndian(Packed(x)) == x
  {
    assert Pow256(2) == 0x1_0000;
    assert Pow256(4) == 0x1_0000_0000;
    assert Pow256(6) == 0x1_0000_0000_0000;
    assert Pow256(8) == 0x1_0000_0000_0000_0000;
    BigEndianInverse(8, x);
  }

  /** The preimage starts with its name, a zero byte and the count in eight bytes. */
  lemma PreimageStarts(items: seq<Output>)
    requires AllPackable(items) && |items| < TWO_TO_63
    ensures var name := "cadplot-receipt-outputs-v1";
            var b := Preimage(items);
            && |b| >= 35 && (forall i :: 0 <= i < 26 ==> b[i] == name[i] as int) && b[26] == 0
            && FromBigEndian(b[27..35]) == |items|
  {
    EightBytes(|items|);
    DomainMeans();
    hide BigEndian, FromBigEndian, ItemsBytes;
    StartsWith(RECEIPT_OUTPUT_DOMAIN, Packed(|items|), ItemsBytes(items));
  }

  /** For outputs that pass the checks, the binding is verified exactly for a success with their number and the hash of their preimage. */
  lemma BindsMeans(receipt: Receipt, outputs: seq<Output>, plain: NameRule, digest: Bytes -> string)
    requires 1 <= |outputs| <= 5000 && forall item :: item in outputs ==> ItemProblem(item, plain).None? && |item.file| < 0x1000_0000
    ensures AllPackable(outputs)
    ensures Binds(receipt, outputs, plain, digest) <==>
      receipt.succeeded && receipt.outputCount == |outputs| && receipt.outputsSha256 == digest(Preimage(outputs))
  {
    forall i | 0 <= i < |outputs| ensures Packable(outputs[i]) && Admissible(outputs[i], plain) {
      assert outputs[i] in outputs;
      NoProblemPacks(outputs[i], plain);
    }
    hide Packable, Admissible, ItemProblem, Preimage;
  }
}
