/** The writer and the parser of binary structures. */
module Codec {
  import opened Results
  import opened ByteStrings
  import opened Modular

  //
  // Reading from what is left of the input
  //

  function TakeBytes(n: nat, s: Bytes): Result<(Bytes, Bytes)> {
    if n > |s| then Err(DecodeError) else Ok((s[..n], s[n..]))
  }

  function TakeInt(n: nat, s: Bytes): Result<(nat, Bytes)> {
    var (b, rest) :- TakeBytes(n, s);
    Ok((FromBE(b), rest))
  }

  /** A byte string behind its length. */
  function TakeVar(lengthLength: nat, s: Bytes): Result<(Bytes, Bytes)> {
    var (n, rest) :- TakeInt(lengthLength, s);
    TakeBytes(n, rest)
  }

  function PutVar(data: Bytes, lengthLength: nat): Result<Bytes> {
    var length :- Encode(|data|, lengthLength);
    Ok(length + data)
  }

  lemma TakeBytesBack(b: Bytes, rest: Bytes)
    ensures TakeBytes(|b|, b + rest) == Ok((b, rest))
  {
    assert (b + rest)[..|b|] == b && (b + rest)[|b|..] == rest;
  }

  lemma TakeIntBack(x: nat, n: nat, rest: Bytes)
    requires x < Pow256(n)
    ensures TakeInt(n, ToBE(x, n) + rest) == Ok((x, rest))
  {
    TakeBytesBack(ToBE(x, n), rest);
  }

  lemma TakeVarBack(data: Bytes, lengthLength: nat, rest: Bytes)
    requires PutVar(data, lengthLength).Ok?
    ensures TakeVar(lengthLength, PutVar(data, lengthLength).value + rest) == Ok((data, rest))
  {
    var length := ToBE(|data|, lengthLength);
    assert (length + data) + rest == length + (data + rest);
    TakeIntBack(|data|, lengthLength, data + rest);
    TakeBytesBack(data, rest);
  }

  /** The only input that reads as x is the encoding of x. */
  lemma TakeIntOnly(n: nat, s: Bytes)
    requires TakeInt(n, s).Ok?
    ensures var (x, rest) := TakeInt(n, s).value; x < Pow256(n) && s == ToBE(x, n) + rest && |rest| == |s| - n
  {
    hide FromBE, ToBE, Pow256;
    ToBEFromBE(s[..n]);
    assert |s[..n]| == n && s == s[..n] + s[n..];
  }

  lemma TakeVarOnly(lengthLength: nat, s: Bytes)
    requires TakeVar(lengthLength, s).Ok?
    ensures var (data, rest) := TakeVar(lengthLength, s).value;
            PutVar(data, lengthLength).Ok? && s == PutVar(data, lengthLength).value + rest
  {
    TakeIntOnly(lengthLength, s);
    var (n, after) := TakeInt(lengthLength, s).value;
    assert after == after[..n] + after[n..];
    assert ToBE(n, lengthLength) + (after[..n] + after[n..]) == (ToBE(n, lengthLength) + after[..n]) + after[n..];
  }

  //
  // Lists of items
  //

  /** How one item is written, and read from the start of an input. */
  datatype ItemCodec<!T> = ItemCodec(write: T -> Result<Bytes>, parse: Bytes -> Result<(T, Bytes)>)

  /** Reading gives back what was written, and leaves what follows. */
  predicate Rereads<T(==)>(codec: ItemCodec<T>, x: T, rest: Bytes) {
    var w := codec.write(x);
    w.Ok? ==> w.value != [] && codec.parse(w.value + rest) == Ok((x, rest))
  }

  ghost predicate Reversible<T(!new)>(codec: ItemCodec<T>) {
    forall x: T, rest: Bytes :: Rereads(codec, x, rest)
  }

  /** Reading an item uses up some of the input. */
  predicate Progresses<T>(codec: ItemCodec<T>, s: Bytes) {
    var p := codec.parse(s);
    p.Ok? ==> |p.value.1| < |s|
  }

  ghost predicate Consuming<T(!new)>(codec: ItemCodec<T>) {
    forall s: Bytes :: Progresses(codec, s)
  }

  /** What can be read is the encoding of what is read from it, if that can be written at all. */
  predicate Rewrites<T>(codec: ItemCodec<T>, s: Bytes) {
    var p := codec.parse(s);
    p.Ok? ==> var w := codec.write(p.value.0); w.Ok? ==> s == w.value + p.value.1
  }

  ghost predicate Exact<T(!new)>(codec: ItemCodec<T>) {
    forall s: Bytes :: Rewrites(codec, s)
  }

  /** What can be read can be written. */
  ghost predicate Writable<T(!new)>(codec: ItemCodec<T>) {
    forall s: Bytes {:trigger codec.parse(s)} :: codec.parse(s).Ok? ==> codec.write(codec.parse(s).value.0).Ok?
  }

  /** Writing and reading are inverse to each other, and reading makes progress. */
  ghost predicate Faithful<T(!new)>(codec: ItemCodec<T>) {
    Consuming(codec) && Reversible(codec) && Exact(codec) && Writable(codec)
  }

  function WriteItems<T>(codec: ItemCodec<T>, items: seq<T>): Result<Bytes> {
    if items == [] then Ok([])
    else
      var first :- codec.write(items[0]);
      var later :- WriteItems(codec, items[1..]);
      Ok(first + later)
  }

  /** Items from the start of s until they make up budget bytes; an item that reaches beyond is an error. */
  function ParseItems<T(!new)>(codec: ItemCodec<T>, s: Bytes, budget: nat): Result<(seq<T>, Bytes)>
    requires Consuming(codec)
    decreases budget
  {
    if budget == 0 then Ok(([], s))
    else
      var (x, rest) :- codec.parse(s);
      assert Progresses(codec, s);
      var used := |s| - |rest|;
      if used > budget then Err(DecodeError)
      else
        var (later, end) :- ParseItems(codec, rest, budget - used);
        Ok(([x] + later, end))
  }

  lemma {:induction false} ItemsBack<T(!new)>(codec: ItemCodec<T>, items: seq<T>, rest: Bytes)
    requires Consuming(codec) && WriteItems(codec, items).Ok?
    requires forall x, after {:trigger Rereads(codec, x, after)} :: x in items ==> Rereads(codec, x, after)
    ensures var b := WriteItems(codec, items).value; ParseItems(codec, b + rest, |b|) == Ok((items, rest))
    decreases |items|
  {
    if items == [] {
      assert [] + rest == rest;
    } else {
      var first, later := codec.write(items[0]).value, WriteItems(codec, items[1..]).value;
      assert Rereads(codec, items[0], later + rest);
      assert (first + later) + rest == first + (later + rest);
      ItemsBack(codec, items[1..], rest);
      assert items == [items[0]] + items[1..];
    }
  }

  lemma {:induction false} ItemsOnly<T(!new)>(codec: ItemCodec<T>, s: Bytes, budget: nat)
    requires Consuming(codec) && Exact(codec) && ParseItems(codec, s, budget).Ok?
    ensures var (items, rest) := ParseItems(codec, s, budget).value;
            var w := WriteItems(codec, items);
            && (Writable(codec) ==> w.Ok?)
            && (w.Ok? ==> |w.value| == budget && s == w.value + rest)
    decreases budget
  {
    if budget == 0 {
      assert [] + s == s;
    } else {
      assert Rewrites(codec, s) && Progresses(codec, s);
      var (x, after) := codec.parse(s).value;
      var used := |s| - |after|;
      ItemsOnly(codec, after, budget - used);
      var (later, rest) := ParseItems(codec, after, budget - used).value;
      assert ([x] + later)[1..] == later;
      if codec.write(x).Ok? && WriteItems(codec, later).Ok? {
        var first, laterBytes := codec.write(x).value, WriteItems(codec, later).value;
        assert first + (laterBytes + rest) == (first + laterBytes) + rest;
      }
    }
  }

  /** A list behind the length of its encoding. */
  function PutList<T>(codec: ItemCodec<T>, items: seq<T>, lengthLength: nat): Result<Bytes> {
    var b :- WriteItems(codec, items);
    PutVar(b, lengthLength)
  }

  function TakeList<T(!new)>(codec: ItemCodec<T>, s: Bytes, lengthLength: nat): Result<(seq<T>, Bytes)>
    requires Consuming(codec)
  {
    var (n, rest) :- TakeInt(lengthLength, s);
    ParseItems(codec, rest, n)
  }

  lemma TakeListBack<T(!new)>(codec: ItemCodec<T>, items: seq<T>, lengthLength: nat, rest: Bytes)
    requires Consuming(codec) && PutList(codec, items, lengthLength).Ok?
    requires forall x, after {:trigger Rereads(codec, x, after)} :: x in items ==> Rereads(codec, x, after)
    ensures TakeList(codec, PutList(codec, items, lengthLength).value + rest, lengthLength) == Ok((items, rest))
  {
    var b := WriteItems(codec, items).value;
    var length := ToBE(|b|, lengthLength);
    assert (length + b) + rest == length + (b + rest);
    TakeIntBack(|b|, lengthLength, b + rest);
    ItemsBack(codec, items, rest);
  }

  lemma TakeListOnly<T(!new)>(codec: ItemCodec<T>, s: Bytes, lengthLength: nat)
    requires Consuming(codec) && Exact(codec) && TakeList(codec, s, lengthLength).Ok?
    ensures var (items, rest) := TakeList(codec, s, lengthLength).value;
            var w := PutList(codec, items, lengthLength);
            (Writable(codec) ==> w.Ok?) && (w.Ok? ==> s == w.value + rest)
  {
    TakeIntOnly(lengthLength, s);
    var (n, after) := TakeInt(lengthLength, s).value;
    ItemsOnly(codec, after, n);
    var (items, rest) := ParseItems(codec, after, n).value;
    hide Pow256, ToBE, ParseItems, WriteItems, Consuming, Exact, Writable;
    if WriteItems(codec, items).Ok? {
      var b := WriteItems(codec, items).value;
      assert ToBE(n, lengthLength) + (b + rest) == (ToBE(n, lengthLength) + b) + rest;
    }
  }

  /** Nothing may follow what a structure is made of. */
  function Whole<T>(x: T, rest: Bytes): Result<T> {
    if rest != [] then Err(DecodeError) else Ok(x)
  }

  function TakeWholeList<T(!new)>(codec: ItemCodec<T>, data: Bytes, lengthLength: nat): Result<seq<T>>
    requires Consuming(codec)
  {
    var (items, rest) :- TakeList(codec, data, lengthLength);
    Whole(items, rest)
  }

  lemma WholeListBack<T(!new)>(codec: ItemCodec<T>, items: seq<T>, lengthLength: nat)
    requires Faithful(codec) && lengthLength >= 1 && PutList(codec, items, lengthLength).Ok?
    ensures var b := PutList(codec, items, lengthLength).value;
            b != [] && TakeWholeList(codec, b, lengthLength) == Ok(items)
  {
    hide Pow256, ToBE, ParseItems, WriteItems;
    TakeListBack(codec, items, lengthLength, []);
    var b := PutList(codec, items, lengthLength).value;
    assert b + [] == b;
  }

  lemma WholeListOnly<T(!new)>(codec: ItemCodec<T>, data: Bytes, lengthLength: nat)
    requires Faithful(codec) && TakeWholeList(codec, data, lengthLength).Ok?
    ensures PutList(codec, TakeWholeList(codec, data, lengthLength).value, lengthLength) == Ok(data)
  {
    hide TakeList, PutList;
    TakeListOnly(codec, data, lengthLength);
    var b := PutList(codec, TakeList(codec, data, lengthLength).value.0, lengthLength).value;
    assert b + [] == b;
  }

  //
  // Items of common kinds
  //

  /** Numbers of n bytes. */
  function NumberCodec(n: nat): ItemCodec<nat> {
    ItemCodec((x: nat) => Encode(x, n), (s: Bytes) => TakeInt(n, s))
  }

  /** Byte strings behind their lengths. */
  function StringCodec(lengthLength: nat): ItemCodec<Bytes> {
    ItemCodec((b: Bytes) => PutVar(b, lengthLength), (s: Bytes) => TakeVar(lengthLength, s))
  }

  /** Pairs of numbers of one byte each. */
  const PAIRS := ItemCodec(WritePair, ParsePair)

  function WritePair(x: (nat, nat)): Result<Bytes> {
    var a :- Encode(x.0, 1);
    var b :- Encode(x.1, 1);
    Ok(a + b)
  }

  function ParsePair(s: Bytes): Result<((nat, nat), Bytes)> {
    var (a, rest) :- TakeInt(1, s);
    var (b, rest') :- TakeInt(1, rest);
    Ok(((a, b), rest'))
  }

  /** Reading an item makes progress, and an item that is read is its own encoding. */
  predicate ReadsExactly<T>(codec: ItemCodec<T>, s: Bytes) {
    Progresses(codec, s) && Rewrites(codec, s) && (codec.parse(s).Ok? ==> codec.write(codec.parse(s).value.0).Ok?)
  }

  lemma AllReadExactly<T(!new)>(codec: ItemCodec<T>)
    requires forall s: Bytes :: ReadsExactly(codec, s)
    ensures Consuming(codec) && Exact(codec) && Writable(codec)
  {
    forall s: Bytes ensures Progresses(codec, s) { assert ReadsExactly(codec, s); }
    forall s: Bytes ensures Rewrites(codec, s) { assert ReadsExactly(codec, s); }
    forall s: Bytes | codec.parse(s).Ok? ensures codec.write(codec.parse(s).value.0).Ok? { assert ReadsExactly(codec, s); }
  }

  lemma NumbersFaithful(n: nat)
    requires n >= 1
    ensures Faithful(NumberCodec(n))
  {
    forall x: nat, rest: Bytes ensures Rereads(NumberCodec(n), x, rest) {
      if Encode(x, n).Ok? { TakeIntBack(x, n, rest); }
    }
    forall s: Bytes ensures ReadsExactly(NumberCodec(n), s) {
      if TakeInt(n, s).Ok? { TakeIntOnly(n, s); }
    }
    AllReadExactly(NumberCodec(n));
  }

  lemma StringsFaithful(lengthLength: nat)
    requires lengthLength >= 1
    ensures Faithful(StringCodec(lengthLength))
  {
    forall x: Bytes, rest: Bytes ensures Rereads(StringCodec(lengthLength), x, rest) {
      if PutVar(x, lengthLength).Ok? { TakeVarBack(x, lengthLength, rest); }
    }
    forall s: Bytes ensures ReadsExactly(StringCodec(lengthLength), s) {
      if TakeVar(lengthLength, s).Ok? { TakeVarOnly(lengthLength, s); }
    }
    AllReadExactly(StringCodec(lengthLength));
  }

  lemma TwoNumbersBack(x: (nat, nat), rest: Bytes)
    requires WritePair(x).Ok?
    ensures ParsePair(WritePair(x).value + rest) == Ok((x, rest))
  {
    var a, b := Encode(x.0, 1).value, Encode(x.1, 1).value;
    assert a + b + rest == a + (b + rest);
    TakeIntBack(x.0, 1, b + rest);
    TakeIntBack(x.1, 1, rest);
  }

  lemma TwoNumbersOnly(s: Bytes)
    requires ParsePair(s).Ok?
    ensures var (x, rest) := ParsePair(s).value;
            WritePair(x).Ok? && s == WritePair(x).value + rest && |rest| == |s| - 2
  {
    TakeIntOnly(1, s);
    var (a, mid) := TakeInt(1, s).value;
    TakeIntOnly(1, mid);
    var (b, rest) := TakeInt(1, mid).value;
    hide Pow256, ToBE, TakeInt;
    assert ToBE(a, 1) + (ToBE(b, 1) + rest) == (ToBE(a, 1) + ToBE(b, 1)) + rest;
  }

  lemma PairsFaithful()
    ensures Faithful(PAIRS)
  {
    forall x: (nat, nat), rest: Bytes ensures Rereads(PAIRS, x, rest) {
      if WritePair(x).Ok? { TwoNumbersBack(x, rest); }
    }
    forall s: Bytes ensures ReadsExactly(PAIRS, s) {
      if ParsePair(s).Ok? { TwoNumbersOnly(s); }
    }
    AllReadExactly(PAIRS);
  }

  //
  // Reading a list item by item
  //

  /** A list of items of which some have been read. */
  ghost predicate ReadSoFar<T(!new)>(codec: ItemCodec<T>, whole: Result<(seq<T>, Bytes)>, items: seq<T>, rest: Bytes,
                                        left: int)
    requires Consuming(codec)
  {
    if left < 0 then whole == Err(DecodeError)
    else
      match ParseItems(codec, rest, left)
      case Err(e) => whole == Err(e)
      case Ok((later, end)) => whole == Ok((items + later, end))
  }

  lemma ReadOne<T(!new)>(codec: ItemCodec<T>, whole: Result<(seq<T>, Bytes)>, items: seq<T>, rest: Bytes, left: nat)
    requires Consuming(codec) && left > 0 && ReadSoFar(codec, whole, items, rest, left)
    ensures match codec.parse(rest)
            case Err(e) => whole == Err(e)
            case Ok((x, after)) => |after| < |rest| && ReadSoFar(codec, whole, items + [x], after, left - (|rest| - |after|))
  {
    if codec.parse(rest).Ok? {
      assert Progresses(codec, rest);
      var (x, after) := codec.parse(rest).value;
      var left' := left - (|rest| - |after|);
      if left' >= 0 && ParseItems(codec, after, left').Ok? {
        var later := ParseItems(codec, after, left').value.0;
        assert items + ([x] + later) == (items + [x]) + later;
      }
    }
  }

  lemma FirstOfItems<T(!new)>(codec: ItemCodec<T>, rest: Bytes, n: nat)
    requires Consuming(codec)
    ensures ReadSoFar(codec, ParseItems(codec, rest, n), [], rest, n)
  {
    if ParseItems(codec, rest, n).Ok? {
      assert [] + ParseItems(codec, rest, n).value.0 == ParseItems(codec, rest, n).value.0;
    }
  }

  lemma NoMoreItems<T(!new)>(codec: ItemCodec<T>, whole: Result<(seq<T>, Bytes)>, items: seq<T>, rest: Bytes)
    requires Consuming(codec)
    ensures ReadSoFar(codec, whole, items, rest, 0) <==> whole == Ok((items, rest))
  {
    assert items + [] == items;
  }

  /** Items of n bytes each. */
  predicate Takes<T>(codec: ItemCodec<T>, n: nat, s: Bytes) {
    match codec.parse(s)
    case Err(e) => e == DecodeError
    case Ok(p) => |p.1| == |s| - n
  }

  /** A length that is not a multiple of the size of the items cannot be made up of them. */
  lemma {:induction false} UnevenItems<T(!new)>(codec: ItemCodec<T>, n: nat, s: Bytes, length: nat)
    requires Consuming(codec) && n >= 1 && forall s: Bytes :: Takes(codec, n, s)
    requires length % n != 0
    ensures ParseItems(codec, s, length) == Err(DecodeError)
    decreases length
  {
    assert length != 0 && length != n by { RemainderUnique(n, 1, 0, n); }
    assert Takes(codec, n, s);
    if codec.parse(s).Ok? && length > n {
      AddMultiple(length - n, 1, n);
      UnevenItems(codec, n, codec.parse(s).value.1, length - n);
    }
  }

  //
  // The classes
  //

  class Writer {
    var bytes: Bytes

    constructor ()
      ensures bytes == []
    {
      bytes := [];
    }

    /** x in exactly n bytes, or ValueError with the buffer as it was. */
    method Add(x: nat, n: nat) returns (r: Result<()>)
      modifies this
      ensures match Encode(x, n)
              case Err(e) => r == Err(e) && bytes == old(bytes)
              case Ok(b) => r == Ok(()) && bytes == old(bytes) + b
    {
      var b :- Encode(x, n);
      bytes := bytes + b;
      return Ok(());
    }

    method AddVarBytes(data: Bytes, lengthLength: nat) returns (r: Result<()>)
      modifies this
      ensures match PutVar(data, lengthLength)
              case Err(e) => r == Err(e) && bytes == old(bytes)
              case Ok(b) => r == Ok(()) && bytes == old(bytes) + b
    {
      var _ :- Add(|data|, lengthLength);
      bytes := bytes + data;
      return Ok(());
    }
  }

  class Parser {
    const bytes: Bytes
    var index: nat
    var indexCheck: nat
    var lengthCheck: nat

    ghost predicate Valid()
      reads this
    {
      index <= |bytes|
    }

    /** What is still to be read. */
    function Rest(): Bytes
      requires index <= |bytes|
      reads this
    {
      bytes[index..]
    }

    constructor (bytes: Bytes)
      ensures Valid() && Rest() == bytes && this.bytes == bytes && index == 0
    {
      this.bytes, index, indexCheck, lengthCheck := bytes, 0, 0, 0;
    }

    method GetFixBytes(n: nat) returns (r: Result<Bytes>)
      requires Valid()
      modifies this`index
      ensures Valid() && index >= old(index)
      ensures match TakeBytes(n, old(Rest()))
              case Err(e) => r == Err(e) && index == old(index)
              case Ok(p) => r == Ok(p.0) && Rest() == p.1
    {
      var end := index + n;
      if end > |bytes| { return Err(DecodeError); }
      r := Ok(bytes[index..end]);
      assert bytes[index..][..n] == bytes[index..end] && bytes[index..][n..] == bytes[end..];
      index := end;
    }

    method Get(n: nat) returns (r: Result<nat>)
      requires Valid()
      modifies this`index
      ensures Valid() && index >= old(index)
      ensures match TakeInt(n, old(Rest()))
              case Err(e) => r == Err(e) && index == old(index)
              case Ok(p) => r == Ok(p.0) && Rest() == p.1
    {
      var b :- GetFixBytes(n);
      return Ok(FromBE(b));
    }

    /** When the bytes behind the length are missing, the length has been read all the same. */
    method GetVarBytes(lengthLength: nat) returns (r: Result<Bytes>)
      requires Valid()
      modifies this`index
      ensures Valid() && index >= old(index)
      ensures match TakeVar(lengthLength, old(Rest()))
              case Err(e) => r == Err(e)
              case Ok(p) => r == Ok(p.0) && Rest() == p.1
    {
      var n :- Get(lengthLength);
      r := GetFixBytes(n);
    }

    method StartLengthCheck(lengthLength: nat) returns (r: Result<()>)
      requires Valid()
      modifies this
      ensures Valid()
      ensures match TakeInt(lengthLength, old(Rest()))
              case Err(e) => r == Err(e)
              case Ok(p) => r == Ok(()) && Rest() == p.1 && lengthCheck == p.0 && indexCheck == index
    {
      lengthCheck :- Get(lengthLength);
      indexCheck := index;
      return Ok(());
    }

    /** Whether the structure has been read to its end; reading beyond it is an error. */
    method AtLengthCheck() returns (r: Result<bool>)
      requires indexCheck <= index
      ensures r == if index - indexCheck < lengthCheck then Ok(false)
                   else if index - indexCheck == lengthCheck then Ok(true) else Err(DecodeError)
    {
      if index - indexCheck < lengthCheck { return Ok(false); }
      if index - indexCheck == lengthCheck { return Ok(true); }
      return Err(DecodeError);
    }

    method StopLengthCheck() returns (r: Result<()>)
      requires indexCheck <= index
      ensures r == if index - indexCheck == lengthCheck then Ok(()) else Err(DecodeError)
    {
      if index - indexCheck != lengthCheck { return Err(DecodeError); }
      return Ok(());
    }

    method GetRemainingLength() returns (n: nat)
      requires Valid()
      ensures n == |Rest()|
    {
      n := |bytes| - index;
    }

    /** Numbers of the same size behind their common length. */
    method GetVarList(length: nat, lengthLength: nat) returns (r: Result<seq<nat>>)
      requires Valid() && length >= 1 && Consuming(NumberCodec(length))
      modifies this`index
      ensures Valid() && index >= old(index)
      ensures match TakeList(NumberCodec(length), old(Rest()), lengthLength)
              case Err(e) => r == Err(e)
              case Ok(t) => r == Ok(t.0) && Rest() == t.1
    {
      hide Consuming, ParseItems, TakeInt, ReadSoFar;
      var codec := NumberCodec(length);
      var lengthList :- Get(lengthLength);
      ghost var whole := ParseItems(codec, Rest(), lengthList);
      NumbersTake(length);
      if lengthList % length != 0 {
        UnevenItems(codec, length, Rest(), lengthList);
        return Err(DecodeError);
      }
      FirstOfItems(codec, Rest(), lengthList);
      var count := lengthList / length;
      var items: seq<nat> := [];
      ghost var left := lengthList;
      for i := 0 to count
        invariant Valid() && index >= old(index)
        invariant left == (count - i) * length && ReadSoFar(codec, whole, items, Rest(), left)
      {
        OneLess(count - i, length);
        assert Takes(codec, length, Rest());
        ReadOne(codec, whole, items, Rest(), left);
        left := left - length;
        var x :- Get(length);
        items := items + [x];
      }
      NoMoreItems(codec, whole, items, Rest());
      return Ok(items);
    }

    /** getVarTupleList, for pairs of numbers of one byte each. */
    method GetVarPairs(lengthLength: nat) returns (r: Result<seq<(nat, nat)>>)
      requires Valid() && Consuming(PAIRS)
      modifies this`index
      ensures Valid() && index >= old(index)
      ensures match TakeList(PAIRS, old(Rest()), lengthLength)
              case Err(e) => r == Err(e)
              case Ok(t) => r == Ok(t.0) && Rest() == t.1
    {
      hide Consuming, ParseItems, TakeInt, ReadSoFar;
      var lengthList :- Get(lengthLength);
      ghost var whole := ParseItems(PAIRS, Rest(), lengthList);
      PairsTake();
      if lengthList % 2 != 0 {
        UnevenItems(PAIRS, 2, Rest(), lengthList);
        return Err(DecodeError);
      }
      FirstOfItems(PAIRS, Rest(), lengthList);
      var items: seq<(nat, nat)> := [];
      for i := 0 to lengthList / 2
        invariant Valid() && index >= old(index)
        invariant ReadSoFar(PAIRS, whole, items, Rest(), lengthList - 2 * i)
      {
        assert Takes(PAIRS, 2, Rest());
        ReadOne(PAIRS, whole, items, Rest(), lengthList - 2 * i);
        var a :- Get(1);
        var b :- Get(1);
        items := items + [(a, b)];
      }
      NoMoreItems(PAIRS, whole, items, Rest());
      return Ok(items);
    }
  }

  lemma OneLess(k: nat, n: nat)
    requires k >= 1
    ensures k * n == (k - 1) * n + n
  {
  }

  lemma NumbersTake(n: nat)
    ensures forall s: Bytes :: Takes(NumberCodec(n), n, s)
  {
    hide FromBE;
  }

  lemma PairsTake()
    ensures forall s: Bytes :: Takes(PAIRS, 2, s)
  {
    hide FromBE;
  }
}
