/**
 How a file travels: each message is a fixed header, which carries the name, followed by the
 next chunk of the contents; the receiver appends what follows the header to the
 named file. Values here; FileTransfer has the objects.
 */
module FileFraming {
  import opened Bytes
  import opened Options
  import opened Products

  const CHUNK_SIZE: nat := 65536
  const RECEIVE_BUFFER: nat := 65535
  const MAGIC: nat := 0x12345678

  // FileHeader in memory, as laid out for a 64-bit little-endian machine: the magic number
  // (4 bytes), the type (1), padding (3), the size (8) and the file name (256).
  const NAME_OFFSET: nat := 16
  const NAME_SIZE: nat := 256
  const HEADER_SIZE: nat := 272

  // ---- Numbers in memory ----

  function Power256(n: nat): nat {
    if n == 0 then 1 else 256 * Power256(n - 1)
  }

  function ToBytes(v: nat, n: nat): (bs: seq<byte>)
    ensures |bs| == n
  {
    if n == 0 then [] else [(v % 256) as byte] + ToBytes(v / 256, n - 1)
  }

  function FromBytes(bs: seq<byte>): nat {
    if bs == [] then 0 else bs[0] + 256 * FromBytes(bs[1..])
  }

  lemma {:induction false} NumberRoundTrip(v: nat, n: nat)
    requires v < Power256(n)
    ensures FromBytes(ToBytes(v, n)) == v
    decreases n
  {
    if n > 0 {
      NumberRoundTrip(v / 256, n - 1);
    }
  }

  /** Different bytes are different numbers. */
  lemma {:induction false} SameNumber(a: seq<byte>, b: seq<byte>)
    requires |a| == |b|
    ensures FromBytes(a) == FromBytes(b) <==> a == b
    decreases |a|
  {
    if a != [] {
      SameNumber(a[1..], b[1..]);
      assert a == [a[0]] + a[1..] && b == [b[0]] + b[1..];
    }
  }

  // ---- C strings ----

  /** The C string that starts here. */
  function UpToNul(bs: seq<byte>): seq<byte> {
    if bs == [] || bs[0] == 0 then [] else [bs[0]] + UpToNul(bs[1..])
  }

  function Zeros(n: nat): seq<byte> {
    seq(n, _ => 0)
  }

  /** strncpy: at most n bytes of the string, padded with zeros. */
  function Strncpy(name: seq<byte>, n: nat): (field: seq<byte>)
    ensures |field| == n
  {
    var text := UpToNul(name);
    if |text| >= n then text[..n] else text + Zeros(n - |text|)
  }

  lemma {:induction false} UpToNulStops(text: seq<byte>, rest: seq<byte>)
    requires 0 !in text
    ensures UpToNul(text + [0] + rest) == text
    decreases |text|
  {
    if text != [] {
      assert (text + [0] + rest)[1..] == text[1..] + [0] + rest;
      UpToNulStops(text[1..], rest);
    }
  }

  lemma {:induction false} UpToNulText(bs: seq<byte>)
    ensures 0 !in UpToNul(bs) && |UpToNul(bs)| <= |bs|
    ensures UpToNul(bs) == bs <==> 0 !in bs
    decreases |bs|
  {
    if bs != [] && bs[0] != 0 {
      UpToNulText(bs[1..]);
      assert bs == [bs[0]] + bs[1..];
    }
  }

  // ---- The header ----

  datatype Header = Header(magic: nat, kind: byte, size: nat, filename: seq<byte>)

  predicate ValidHeader(h: Header) {
    h.magic < Power256(4) && h.size < Power256(8) && |h.filename| == NAME_SIZE
  }

  /** The header's bytes; `pad` is whatever the three padding bytes hold. */
  function Encode(h: Header, pad: seq<byte>): (bs: seq<byte>)
    requires ValidHeader(h) && |pad| == 3
    ensures |bs| == HEADER_SIZE
  {
    ToBytes(h.magic, 4) + [h.kind] + pad + ToBytes(h.size, 8) + h.filename
  }

  function Decode(bs: seq<byte>): Header
    requires |bs| >= HEADER_SIZE
  {
    Header(FromBytes(bs[..4]), bs[4], FromBytes(bs[8..16]), bs[NAME_OFFSET..HEADER_SIZE])
  }

  /** What is written into a header is read out of any message that begins with it. */
  lemma HeaderRoundTrip(h: Header, pad: seq<byte>, data: seq<byte>)
    requires ValidHeader(h) && |pad| == 3
    ensures Decode(Encode(h, pad) + data) == h
  {
    var bs := Encode(h, pad) + data;
    assert bs[..4] == ToBytes(h.magic, 4);
    assert bs[8..16] == ToBytes(h.size, 8);
    assert bs[NAME_OFFSET..HEADER_SIZE] == h.filename;
    NumberRoundTrip(h.magic, 4);
    NumberRoundTrip(h.size, 8);
  }

  /** The header sendFileInternal prepares. */
  function FileHeader(name: seq<byte>, size: nat): (h: Header)
    requires size < Power256(8)
    ensures ValidHeader(h)
  {
    assert Power256(4) == 0x1_0000_0000 by { assert Power256(2) == 65536; }
    Header(MAGIC, 0, size, Strncpy(name, NAME_SIZE - 1) + [0])
  }

  /** The name under which a file arrives. */
  function ArrivalName(name: seq<byte>): seq<byte> {
    var text := UpToNul(name);
    if |text| >= NAME_SIZE then text[..NAME_SIZE - 1] else text
  }

  /** A name survives exactly when it is free of NULs and at most 255 bytes long. */
  lemma NameSurvivesIff(name: seq<byte>)
    ensures ArrivalName(name) == name <==> 0 !in name && |name| <= NAME_SIZE - 1
  {
    UpToNulText(name);
  }

  /** The receiver reads the name as a C string from the name field on. */
  function NameIn(message: seq<byte>): seq<byte>
    requires |message| >= HEADER_SIZE
  {
    UpToNul(message[NAME_OFFSET..])
  }

  lemma {:induction false} PaddedStops(text: seq<byte>, zeros: seq<byte>, rest: seq<byte>)
    requires 0 !in text && forall i :: 0 <= i < |zeros| ==> zeros[i] == 0
    ensures UpToNul(text + zeros + [0] + rest) == text
  {
    if zeros == [] {
      assert text + zeros == text;
      UpToNulStops(text, rest);
    } else {
      assert text + zeros + [0] + rest == text + [0] + (zeros[1..] + [0] + rest);
      UpToNulStops(text, zeros[1..] + [0] + rest);
    }
  }

  lemma StrncpyIsPadded(name: seq<byte>)
    ensures |ArrivalName(name)| < NAME_SIZE && 0 !in ArrivalName(name)
    ensures Strncpy(name, NAME_SIZE - 1) == ArrivalName(name) + Zeros(NAME_SIZE - 1 - |ArrivalName(name)|)
  {
    UpToNulText(name);
    if |UpToNul(name)| >= NAME_SIZE - 1 {
      assert ArrivalName(name) + Zeros(0) == ArrivalName(name);
    }
  }

  lemma FieldArrives(name: seq<byte>, data: seq<byte>)
    ensures UpToNul(Strncpy(name, NAME_SIZE - 1) + [0] + data) == ArrivalName(name)
  {
    StrncpyIsPadded(name);
    PaddedStops(ArrivalName(name), Zeros(NAME_SIZE - 1 - |ArrivalName(name)|), data);
  }

  lemma NameArrives(name: seq<byte>, size: nat, pad: seq<byte>, data: seq<byte>)
    requires size < Power256(8) && |pad| == 3
    ensures NameIn(Encode(FileHeader(name, size), pad) + data) == ArrivalName(name)
  {
    var h := FileHeader(name, size);
    var message := Encode(h, pad) + data;
    assert message[NAME_OFFSET..] == h.filename + data;
    FieldArrives(name, data);
  }

  // ---- Cutting a file into messages ----

  /** The messages for the contents: full chunks, then one that is not full, maybe empty. */
  function Messages(header: seq<byte>, contents: seq<byte>): seq<seq<byte>>
    decreases |contents|
  {
    if |contents| < CHUNK_SIZE then
      [header + contents]
    else
      [header + contents[..CHUNK_SIZE]] + Messages(header, contents[CHUNK_SIZE..])
  }

  /** The totals reported to the progress callback after each message. */
  function Totals(sent: nat, left: nat): seq<nat>
    decreases left
  {
    if left < CHUNK_SIZE then [sent + left] else [sent + CHUNK_SIZE] + Totals(sent + CHUNK_SIZE, left - CHUNK_SIZE)
  }

  lemma QuotientStep(k: nat)
    requires k >= CHUNK_SIZE
    ensures k / CHUNK_SIZE == (k - CHUNK_SIZE) / CHUNK_SIZE + 1
  {
  }

  /** A file of any size takes size / CHUNK_SIZE + 1 messages; a size that is an exact
      multiple ends with a message that is all header. */
  lemma {:induction false} MessageCount(header: seq<byte>, contents: seq<byte>)
    ensures var ms := Messages(header, contents);
            && |ms| == |contents| / CHUNK_SIZE + 1
            && |ms[|ms| - 1]| == |header| + |contents| % CHUNK_SIZE
            && forall k :: 0 <= k < |ms| - 1 ==> |ms[k]| == |header| + CHUNK_SIZE
    decreases |contents|
  {
    if |contents| >= CHUNK_SIZE {
      MessageCount(header, contents[CHUNK_SIZE..]);
      QuotientStep(|contents|);
    }
  }

  /** Every message of a file begins with the same header, from which the receiver could read
      that it is a file, how long the whole file is, and what it is called. */
  lemma {:induction false} EveryMessageSaysWhat(name: seq<byte>, size: nat, pad: seq<byte>, contents: seq<byte>, m: seq<byte>)
    requires size < Power256(8) && |pad| == 3 && m in Messages(Encode(FileHeader(name, size), pad), contents)
    ensures |m| >= HEADER_SIZE && m[..4] == [0x78, 0x56, 0x34, 0x12] && m[4] == 0
    ensures FromBytes(m[8..16]) == size && Decode(m).size == size && Decode(m).kind == 0
    ensures NameIn(m) == ArrivalName(name) && m[HEADER_SIZE - 1] == 0
    decreases |contents|
  {
    var header := Encode(FileHeader(name, size), pad);
    if m == Messages(header, contents)[0] {
      var data := m[HEADER_SIZE..];
      assert m == header + data;
      HeaderRoundTrip(FileHeader(name, size), pad, data);
      NameArrives(name, size, pad, data);
      MagicIff(m[..4]);
    } else {
      EveryMessageSaysWhat(name, size, pad, contents[CHUNK_SIZE..], m);
    }
  }

  /** How much of `left` bytes one message takes. */
  function ChunkLength(left: nat): nat {
    if CHUNK_SIZE <= left then CHUNK_SIZE else left
  }

  /** The k-th chunk of a file. */
  function Chunk(contents: seq<byte>, k: nat): seq<byte>
    requires k * CHUNK_SIZE <= |contents|
  {
    contents[k * CHUNK_SIZE..k * CHUNK_SIZE + ChunkLength(|contents| - k * CHUNK_SIZE)]
  }

  lemma ChunkOfRest(contents: seq<byte>, k: nat)
    requires 0 < k && k * CHUNK_SIZE <= |contents|
    ensures Chunk(contents[CHUNK_SIZE..], k - 1) == Chunk(contents, k)
  {
    var from := (k - 1) * CHUNK_SIZE;
    assert from + CHUNK_SIZE == k * CHUNK_SIZE;
  }

  lemma FirstMessage(header: seq<byte>, contents: seq<byte>)
    ensures Messages(header, contents)[0] == header + Chunk(contents, 0)
    ensures |Messages(header, contents)| == 1 <==> |Chunk(contents, 0)| < CHUNK_SIZE
  {
    if |contents| >= CHUNK_SIZE {
      MessageCount(header, contents[CHUNK_SIZE..]);
    } else {
      assert Chunk(contents, 0) == contents;
    }
  }

  /** Message k carries the bytes from k * CHUNK_SIZE on; it is the last one when it is not full. */
  lemma {:induction false} MessageAt(header: seq<byte>, contents: seq<byte>, k: nat)
    requires k * CHUNK_SIZE <= |contents|
    ensures var ms := Messages(header, contents);
            k < |ms| && ms[k] == header + Chunk(contents, k) && (k + 1 == |ms| <==> |Chunk(contents, k)| < CHUNK_SIZE)
    decreases k
  {
    if k == 0 {
      FirstMessage(header, contents);
    } else {
      MessageAt(header, contents[CHUNK_SIZE..], k - 1);
      ChunkOfRest(contents, k);
    }
  }

  /** The total reported after message k counts everything up to its end. */
  lemma {:induction false} TotalAt(sent: nat, left: nat, k: nat)
    requires k * CHUNK_SIZE <= left
    ensures k < |Totals(sent, left)| && Totals(sent, left)[k] == sent + k * CHUNK_SIZE + ChunkLength(left - k * CHUNK_SIZE)
    decreases k
  {
    if k > 0 {
      TotalAt(sent + CHUNK_SIZE, left - CHUNK_SIZE, k - 1);
    }
  }

  /** The reported totals never go back, and the last one is the file size. */
  lemma {:induction false} TotalsAscend(sent: nat, left: nat)
    ensures var ts := Totals(sent, left);
            && |ts| == left / CHUNK_SIZE + 1
            && ts[|ts| - 1] == sent + left
            && (forall k :: 0 <= k < |ts| ==> sent <= ts[k] <= sent + left)
            && (forall j, k :: 0 <= j < k < |ts| ==> ts[j] <= ts[k])
    decreases left
  {
    if left >= CHUNK_SIZE {
      TotalsAscend(sent + CHUNK_SIZE, left - CHUNK_SIZE);
      QuotientStep(left);
    }
  }

  /** All the messages of a file fit the receive buffer exactly when it and one header do. */
  lemma FitsBufferIff(header: seq<byte>, contents: seq<byte>)
    requires |header| == HEADER_SIZE
    ensures (forall m :: m in Messages(header, contents) ==> |m| <= RECEIVE_BUFFER)
            <==> |contents| <= RECEIVE_BUFFER - HEADER_SIZE
  {
    var ms := Messages(header, contents);
    assert ms[0] in ms;
    if |contents| < CHUNK_SIZE {
      assert ms == [header + contents];
    }
  }

  // ---- The receiver ----

  /** Files by name. A name in `blocked` cannot be opened for writing. */
  type Files = map<seq<byte>, seq<byte>>

  function Contents(files: Files, name: seq<byte>): seq<byte> {
    if name in files then files[name] else []
  }

  function Append(files: Files, blocked: set<seq<byte>>, name: seq<byte>, data: seq<byte>): Files {
    if name in blocked then files else files[name := Contents(files, name) + data]
  }

  function Lookup(files: Files, x: seq<byte>): Option<seq<byte>> {
    if x in files then Some(files[x]) else None
  }

  lemma AppendLookup(files: Files, blocked: set<seq<byte>>, name: seq<byte>, data: seq<byte>, x: seq<byte>)
    ensures Lookup(Append(files, blocked, name, data), x) ==
            if x == name && x !in blocked then Some(Contents(files, x) + data) else Lookup(files, x)
  {
  }

  /** onDataReceived. */
  function Receive(files: Files, blocked: set<seq<byte>>, message: seq<byte>): Files {
    if |message| < HEADER_SIZE || FromBytes(message[..4]) != MAGIC then
      files
    else
      Append(files, blocked, NameIn(message), message[HEADER_SIZE..])
  }

  function ReceiveAll(files: Files, blocked: set<seq<byte>>, messages: seq<seq<byte>>): Files
    decreases |messages|
  {
    if messages == [] then files else ReceiveAll(Receive(files, blocked, messages[0]), blocked, messages[1..])
  }

  lemma {:induction false} ReceiveAllConcat(files: Files, blocked: set<seq<byte>>, a: seq<seq<byte>>, b: seq<seq<byte>>)
    ensures ReceiveAll(files, blocked, a + b) == ReceiveAll(ReceiveAll(files, blocked, a), blocked, b)
    decreases |a|
  {
    if a == [] {
      assert a + b == b;
    } else {
      assert (a + b)[1..] == a[1..] + b;
      ReceiveAllConcat(Receive(files, blocked, a[0]), blocked, a[1..], b);
    }
  }

  /** The magic number as it lies in memory. */
  const MAGIC_BYTES: seq<byte> := [0x78, 0x56, 0x34, 0x12]

  lemma MagicIff(bs: seq<byte>)
    requires |bs| == 4
    ensures FromBytes(bs) == MAGIC <==> bs == MAGIC_BYTES
  {
    assert FromBytes(MAGIC_BYTES[3..]) == 0x12;
    assert FromBytes(MAGIC_BYTES[2..]) == 0x1234;
    assert FromBytes(MAGIC_BYTES[1..]) == 0x123456;
    SameNumber(bs, MAGIC_BYTES);
  }

  /** What any message does, also one that no sender made: too short or without the magic
      bytes it changes nothing; otherwise it lengthens the file it names by all that
      follows the header, unless that cannot be opened, and touches no other file. */
  lemma ReceiveLaw(files: Files, blocked: set<seq<byte>>, message: seq<byte>)
    ensures var files' := Receive(files, blocked, message);
            if |message| < HEADER_SIZE || message[..4] != MAGIC_BYTES then
              files' == files
            else
              forall x :: Lookup(files', x) ==
                          if x == NameIn(message) && x !in blocked then Some(Contents(files, x) + message[HEADER_SIZE..])
                          else Lookup(files, x)
  {
    if |message| >= HEADER_SIZE {
      MagicIff(message[..4]);
    }
  }

  /** The name a message carries is the text between the name offset and the first NUL. */
  lemma NameOfMessage(head: seq<byte>, name: seq<byte>, rest: seq<byte>)
    requires |head| == 16 && 0 !in name && |head + name + [0] + rest| >= HEADER_SIZE
    ensures NameIn(head + name + [0] + rest) == name
  {
    assert (head + name + [0] + rest)[NAME_OFFSET..] == name + [0] + rest;
    UpToNulStops(name, rest);
  }

  /** One message from the sender appends its chunk to the file of that name. */
  lemma ReceiveOne(files: Files, blocked: set<seq<byte>>, name: seq<byte>, size: nat, pad: seq<byte>, data: seq<byte>)
    requires size < Power256(8) && |pad| == 3
    ensures Receive(files, blocked, Encode(FileHeader(name, size), pad) + data)
            == Append(files, blocked, ArrivalName(name), data)
  {
    var h := FileHeader(name, size);
    var message := Encode(h, pad) + data;
    HeaderRoundTrip(h, pad, data);
    assert Decode(message).magic == MAGIC;
    NameArrives(name, size, pad, data);
    assert message[HEADER_SIZE..] == data;
  }

  /** What the first k messages carry. */
  function Carried(contents: seq<byte>, k: nat): seq<byte> {
    if k * CHUNK_SIZE < |contents| then contents[..k * CHUNK_SIZE] else contents
  }

  /** Messages with this header are appended to the file `name`, whatever they carry. */
  ghost predicate Addresses(header: seq<byte>, blocked: set<seq<byte>>, name: seq<byte>) {
    forall files, data {:trigger Receive(files, blocked, header + data)} ::
      Receive(files, blocked, header + data) == Append(files, blocked, name, data)
  }

  lemma HeaderAddresses(blocked: set<seq<byte>>, name: seq<byte>, size: nat, pad: seq<byte>)
    requires size < Power256(8) && |pad| == 3
    ensures Addresses(Encode(FileHeader(name, size), pad), blocked, ArrivalName(name))
  {
    forall files, data
      ensures Receive(files, blocked, Encode(FileHeader(name, size), pad) + data)
              == Append(files, blocked, ArrivalName(name), data)
    {
      ReceiveOne(files, blocked, name, size, pad, data);
    }
  }

  /** The first k messages of a file, received in order, append exactly what they carry
      to the file of that name, and change no other file. */
  lemma {:induction false} FileArrives(files: Files, blocked: set<seq<byte>>, header: seq<byte>, name: seq<byte>,
                                       contents: seq<byte>, k: nat)
    requires Addresses(header, blocked, name)
    requires 1 <= k <= |Messages(header, contents)|
    ensures ReceiveAll(files, blocked, Messages(header, contents)[..k]) == Append(files, blocked, name, Carried(contents, k))
    decreases |contents|
  {
    var ms := Messages(header, contents);
    var chunk := Carried(contents, 1);
    assert ms[0] == header + chunk;
    assert Receive(files, blocked, header + chunk) == Append(files, blocked, name, chunk);
    assert ms[..k][1..] == ms[1..][..k - 1];
    if k > 1 {
      var rest := contents[CHUNK_SIZE..];
      FileArrives(Append(files, blocked, name, chunk), blocked, header, name, rest, k - 1);
      assert chunk + Carried(rest, k - 1) == Carried(contents, k);
      AppendTwice(files, blocked, name, chunk, Carried(rest, k - 1));
    }
  }

  lemma AppendTwice(files: Files, blocked: set<seq<byte>>, name: seq<byte>, a: seq<byte>, b: seq<byte>)
    ensures Append(Append(files, blocked, name, a), blocked, name, b) == Append(files, blocked, name, a + b)
  {
    assert (Contents(files, name) + a) + b == Contents(files, name) + (a + b);
  }

  /** All the messages of a file carry all of it. */
  lemma AllCarried(header: seq<byte>, contents: seq<byte>)
    ensures Carried(contents, |Messages(header, contents)|) == contents
  {
    MessageCount(header, contents);
  }
}
