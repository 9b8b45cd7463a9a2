/** The ClientHello message and its truncation for PSK binders. */
module ClientHellos {
  import opened Results
  import opened ByteStrings
  import opened Codec
  import opened Extensions

  const CLIENT_HELLO: Byte := 1

  datatype Hello = Hello(
    major: nat, minor: nat, random: Bytes, sessionId: Bytes, cipherSuites: seq<nat>, compression: Bytes,
    extensions: Option<seq<Extension>>)

  const SUITES := NumberCodec(2)

  //
  // Writing
  //

  /** Everything in front of the extensions. */
  function WriteHead(h: Hello): Result<Bytes> {
    var major :- Encode(h.major, 1);
    var minor :- Encode(h.minor, 1);
    var sessionId :- PutVar(h.sessionId, 1);
    var suites :- PutList(SUITES, h.cipherSuites, 2);
    var compression :- PutVar(h.compression, 1);
    Ok(major + (minor + (h.random + (sessionId + (suites + compression)))))
  }

  function WriteTail(h: Hello): Result<Bytes> {
    match h.extensions
    case None => Ok([])
    case Some(extensions) => PutList(EXTENSIONS, extensions, 2)
  }

  function Write(h: Hello): Result<Bytes> {
    var head :- WriteHead(h);
    var tail :- WriteTail(h);
    var length :- Encode(|head + tail|, 3);
    Ok([CLIENT_HELLO] + length + (head + tail))
  }

  /** The message begins with its type and its length, and the version, the random bytes and the session
      identifier come first in it (section 7.4.1.2 of RFC 5246). */
  lemma HelloBegins(h: Hello)
    requires Write(h).Ok? && |h.random| == 32
    ensures var b := Write(h).value;
            && |b| >= 39 + |h.sessionId| && b[0] == 1 && FromBE(b[1..4]) == |b| - 4
            && b[4] == h.major && b[5] == h.minor && b[6..38] == h.random
            && b[38] == |h.sessionId| && b[39..39 + |h.sessionId|] == h.sessionId
            && |b| >= 41 + |h.sessionId| && FromBE(b[39 + |h.sessionId|..41 + |h.sessionId|]) == 2 * |h.cipherSuites|
  {
    hide Pow256, WriteItems, WriteTail, FromBE, ToBE;
    var major, minor, n := Encode(h.major, 1).value, Encode(h.minor, 1).value, Encode(|h.sessionId|, 1).value;
    var suites, compression := PutList(SUITES, h.cipherSuites, 2).value, PutVar(h.compression, 1).value;
    var head, tail := WriteHead(h).value, WriteTail(h).value;
    SingleByte(h.major);
    SingleByte(h.minor);
    SingleByte(|h.sessionId|);
    assert head == major + (minor + (h.random + ((n + h.sessionId) + (suites + compression))));
    assert head[0] == major[0] && head[1] == minor[0] && head[2..34] == h.random;
    assert head[34] == n[0] && head[35..35 + |h.sessionId|] == h.sessionId;
    var length := Encode(|head + tail|, 3).value;
    var b := Write(h).value;
    assert b == [CLIENT_HELLO] + length + (head + tail);
    assert b[1..4] == length;
    assert forall i :: 0 <= i < |head| ==> b[4 + i] == head[i];
    SuitesLength(h.cipherSuites);
    var l := Encode(2 * |h.cipherSuites|, 2).value;
    assert suites[..2] == l && head[35 + |h.sessionId|..37 + |h.sessionId|] == l;
    assert b[39 + |h.sessionId|..41 + |h.sessionId|] == head[35 + |h.sessionId|..37 + |h.sessionId|];
    assert b[6..38] == head[2..34] && b[39..39 + |h.sessionId|] == head[35..35 + |h.sessionId|];
  }

  lemma {:induction false} SuitesLength(suites: seq<nat>)
    requires WriteItems(SUITES, suites).Ok?
    ensures |WriteItems(SUITES, suites).value| == 2 * |suites|
  {
    hide ToBE;
    if suites != [] {
      SuitesLength(suites[1..]);
    }
  }

  lemma SingleByte(x: nat)
    ensures Encode(x, 1).Ok? ==> x < 256 && Encode(x, 1).value == [x]
  {
    assert Pow256(1) == 256;
    if x < 256 {
      var b := ToBE(x, 1);
      assert b[..0] == [] && FromBE(b) == 256 * FromBE(b[..0]) + b[0];
    }
  }

  //
  // Parsing
  //

  /** The fields in front of the extensions; a session identifier has at most 32 bytes. */
  function ParseHead(s: Bytes): Result<(Hello, Bytes)> {
    NumbersFaithful(2);
    var (major, s1) :- TakeInt(1, s);
    var (minor, s2) :- TakeInt(1, s1);
    var (random, s3) :- TakeBytes(32, s2);
    var (sessionId, s4) :- TakeVar(1, s3);
    if |sessionId| > 32 then Err(DecodeError)
    else
      var (suites, s5) :- TakeList(SUITES, s4, 2);
      var (compression, s6) :- TakeVar(1, s5);
      Ok((Hello(major, minor, random, sessionId, suites, compression, None), s6))
  }

  /** A block of extensions behind its length. */
  function ParseTail(s: Bytes): Result<(seq<Extension>, Bytes)> {
    var (block, rest) :- TakeVar(2, s);
    var extensions :- ParseBlock(block);
    Ok((extensions, rest))
  }

  /** The message behind its type byte; extensions are read only if the length says that more is to come. */
  function Parse(s: Bytes): Result<(Hello, Bytes)> {
    var (length, body) :- TakeInt(3, s);
    var (h, rest) :- ParseHead(body);
    var read := |body| - |rest|;
    if read > length then Err(DecodeError)
    else if read == length then Ok((h, rest))
    else
      var (extensions, rest') :- ParseTail(rest);
      if |body| - |rest'| != length then Err(DecodeError) else Ok((h.(extensions := Some(extensions)), rest'))
  }

  //
  // Round trips
  //

  /** What the parser accepts: 32 bytes of randomness, a short session identifier, recoverable extensions. */
  predicate Readable(h: Hello) {
    && |h.random| == 32 && |h.sessionId| <= 32
    && (h.extensions.Some? ==> forall e :: e in h.extensions.value ==> Recoverable(e))
  }

  lemma HeadBack(h: Hello, rest: Bytes)
    requires WriteHead(h).Ok? && |h.random| == 32 && |h.sessionId| <= 32
    ensures ParseHead(WriteHead(h).value + rest) == Ok((h.(extensions := None), rest))
  {
    NumbersFaithful(2);
    var major, minor, sessionId := Encode(h.major, 1).value, Encode(h.minor, 1).value, PutVar(h.sessionId, 1).value;
    var suites, compression := PutList(SUITES, h.cipherSuites, 2).value, PutVar(h.compression, 1).value;
    var s6 := rest;
    var s5 := compression + s6;
    var s4 := suites + s5;
    var s3 := sessionId + s4;
    var s2 := h.random + s3;
    var s1 := minor + s2;
    TakeIntBack(h.major, 1, s1);
    TakeIntBack(h.minor, 1, s2);
    TakeBytesBack(h.random, s3);
    TakeVarBack(h.sessionId, 1, s4);
    TakeListBack(SUITES, h.cipherSuites, 2, s5);
    TakeVarBack(h.compression, 1, s6);
    hide Encode, PutVar, PutList, TakeInt, TakeBytes, TakeVar, TakeList;
    RegroupSix(major, minor, h.random, sessionId, suites, compression, rest);
  }

  lemma RegroupSix(a: Bytes, b: Bytes, c: Bytes, d: Bytes, e: Bytes, f: Bytes, rest: Bytes)
    ensures (a + (b + (c + (d + (e + f))))) + rest == a + (b + (c + (d + (e + (f + rest)))))
  {
    Regroup(e, f, rest);
    Regroup(d, e + f, rest);
    Regroup(c, d + (e + f), rest);
    Regroup(b, c + (d + (e + f)), rest);
    Regroup(a, b + (c + (d + (e + f))), rest);
  }

  lemma Regroup(x: Bytes, y: Bytes, z: Bytes)
    ensures (x + y) + z == x + (y + z)
  {
  }

  lemma TailBack(extensions: seq<Extension>, rest: Bytes)
    requires PutList(EXTENSIONS, extensions, 2).Ok? && forall e :: e in extensions ==> Recoverable(e)
    ensures ParseTail(PutList(EXTENSIONS, extensions, 2).value + rest) == Ok((extensions, rest))
  {
    var block := WriteItems(EXTENSIONS, extensions).value;
    TakeVarBack(block, 2, rest);
    BlockRoundTrip(extensions);
  }

  lemma BodyBack(h: Hello, rest: Bytes)
    requires Write(h).Ok? && Readable(h)
    ensures Parse(Write(h).value[1..] + rest) == Ok((h, rest))
  {
    var head, tail := WriteHead(h).value, WriteTail(h).value;
    var n := |head + tail|;
    var length := Encode(n, 3).value;
    var body := head + (tail + rest);
    assert Write(h).value[1..] + rest == length + body by {
      assert Write(h).value == [CLIENT_HELLO] + (length + (head + tail));
      assert ([CLIENT_HELLO] + (length + (head + tail)))[1..] == length + (head + tail);
      Regroup(length, head + tail, rest);
      Regroup(head, tail, rest);
    }
    TakeIntBack(n, 3, body);
    HeadBack(h, tail + rest);
    hide WriteHead, ParseHead, TakeInt, ParseTail, PutList, Encode;
    if h.extensions.Some? {
      TailBack(h.extensions.value, rest);
      TailNonempty(h.extensions.value);
    } else {
      assert tail + rest == rest;
    }
  }

  lemma TailNonempty(extensions: seq<Extension>)
    requires PutList(EXTENSIONS, extensions, 2).Ok?
    ensures |PutList(EXTENSIONS, extensions, 2).value| >= 2
  {
    hide ToBE, Pow256, WriteItems;
  }

  lemma ParsedIsReadable(s: Bytes)
    requires Parse(s).Ok?
    ensures Readable(Parse(s).value.0)
  {
    hide TakeInt, TakeVar, TakeList, ParseBlock;
    var body := TakeInt(3, s).value.1;
    var (h, rest) := ParseHead(body).value;
    if Parse(s).value.0.extensions.Some? {
      BlockOnly(TakeVar(2, rest).value.0);
    }
  }

  /** A ClientHello that can be written is read back, to the last byte, exactly if it is readable. */
  lemma HelloRoundTripIff(h: Hello, rest: Bytes)
    requires Write(h).Ok?
    ensures Parse(Write(h).value[1..] + rest) == Ok((h, rest)) <==> Readable(h)
  {
    assert Write(h).value != [];
    hide Write, Parse, Readable;
    if Readable(h) {
      BodyBack(h, rest);
    } else if Parse(Write(h).value[1..] + rest).Ok? {
      ParsedIsReadable(Write(h).value[1..] + rest);
    }
  }

  lemma TakeBytesOnly(n: nat, s: Bytes)
    requires TakeBytes(n, s).Ok?
    ensures var (b, rest) := TakeBytes(n, s).value; |b| == n && s == b + rest
  {
  }

  lemma HeadOnly(s: Bytes)
    requires ParseHead(s).Ok?
    ensures var (h, rest) := ParseHead(s).value;
            h.extensions.None? && WriteHead(h).Ok? && s == WriteHead(h).value + rest
  {
    hide Pow256, ToBE, PutVar, PutList, TakeInt, TakeBytes, TakeVar, TakeList, Exact, Writable, Reversible;
    NumbersFaithful(2);
    TakeIntOnly(1, s);
    var (major, s1) := TakeInt(1, s).value;
    TakeIntOnly(1, s1);
    var (minor, s2) := TakeInt(1, s1).value;
    var (random, s3) := TakeBytes(32, s2).value;
    TakeBytesOnly(32, s2);
    TakeVarOnly(1, s3);
    var (sessionId, s4) := TakeVar(1, s3).value;
    TakeListOnly(SUITES, s4, 2);
    var (suites, s5) := TakeList(SUITES, s4, 2).value;
    TakeVarOnly(1, s5);
    var (compression, s6) := TakeVar(1, s5).value;
    RegroupSix(Encode(major, 1).value, Encode(minor, 1).value, random, PutVar(sessionId, 1).value,
               PutList(SUITES, suites, 2).value, PutVar(compression, 1).value, s6);
  }

  lemma TailOnly(s: Bytes)
    requires ParseTail(s).Ok?
    ensures var (extensions, rest) := ParseTail(s).value;
            var w := PutList(EXTENSIONS, extensions, 2);
            && TakeVar(2, s).Ok?
            && (w.Ok? <==> KeyShares(None) !in extensions)
            && (w.Ok? ==> if Tidy(TakeVar(2, s).value.0) then s == w.value + rest else |w.value + rest| < |s|)
  {
    TakeVarOnly(2, s);
    var block := TakeVar(2, s).value.0;
    BlockOnly(block);
    var w := WriteItems(EXTENSIONS, ParseBlock(block).value);
    if w.Ok? {
      ShorterFits(w.value, block);
    }
    hide TakeVar, ParseBlock, WriteItems, Encode, Tidy;
  }

  /** The block of extensions in an encoding behind its type byte. */
  function BlockOf(s: Bytes): Bytes
    requires Parse(s).Ok? && Parse(s).value.0.extensions.Some?
  {
    TakeVar(2, ParseHead(TakeInt(3, s).value.1).value.1).value.0
  }

  /** What reads as a ClientHello can be written unless key shares are not set, and is its own encoding exactly if
      no bytes of its extensions were dropped. */
  lemma HelloOnly(s: Bytes)
    requires Parse(s).Ok?
    ensures var (h, rest) := Parse(s).value;
            && (Write(h).Ok? <==> h.extensions.None? || KeyShares(None) !in h.extensions.value)
            && (Write(h).Ok? ==>
                  ([CLIENT_HELLO] + s == Write(h).value + rest <==> h.extensions.None? || Tidy(BlockOf(s))))
  {
    TakeIntOnly(3, s);
    var (length, body) := TakeInt(3, s).value;
    HeadOnly(body);
    var (h0, rest0) := ParseHead(body).value;
    var (h, rest) := Parse(s).value;
    if h.extensions.Some? {
      TailOnly(rest0);
    }
    hide TakeInt, TakeVar, ParseHead, ParseTail, WriteHead, WriteItems, PutList, Pow256, ToBE, Tidy;
    SameHead(h);
    if h.extensions.None? || KeyShares(None) !in h.extensions.value {
      var head, tail := WriteHead(h).value, WriteTail(h).value;
      if h.extensions.None? {
        assert head + tail == head && tail + rest == rest;
      }
      assert |tail + rest| <= |rest0|;
      BodyOnly(length, s, body, head, tail, rest, rest0);
    }
  }

  /** A message is its encoding again exactly if its tail is. */
  lemma BodyOnly(length: nat, s: Bytes, body: Bytes, head: Bytes, tail: Bytes, rest: Bytes, rest0: Bytes)
    requires length < Pow256(3) && s == ToBE(length, 3) + body && body == head + rest0 && |body| - |rest| == length
    requires tail + rest == rest0 || |tail + rest| < |rest0|
    ensures Encode(|head + tail|, 3).Ok?
    ensures [CLIENT_HELLO] + s == [CLIENT_HELLO] + Encode(|head + tail|, 3).value + (head + tail) + rest
            <==> tail + rest == rest0
  {
    hide Pow256, ToBE;
    var w := Encode(|head + tail|, 3).value;
    var all := [CLIENT_HELLO] + w + (head + tail) + rest;
    assert |all| == 4 + |head| + |tail + rest| && |[CLIENT_HELLO] + s| == 4 + |head| + |rest0|;
    if tail + rest == rest0 {
      Regroup(head, tail, rest);
      assert |head + tail| == length;
      Regroup(w, head + tail, rest);
      Regroup([CLIENT_HELLO], w + (head + tail), rest);
      Regroup([CLIENT_HELLO], w, head + tail);
    }
  }

  lemma SameHead(h: Hello)
    ensures WriteHead(h.(extensions := None)) == WriteHead(h)
  {
    hide Encode, PutVar, PutList;
  }
}
