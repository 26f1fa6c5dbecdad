/**
 The sender and the receiver of files, as objects. Between them lies a transport that is
 taken to deliver every message whole and in order; how many messages it accepts
 before it refuses one is up to it.
 */
module FileTransfer {
  import opened Bytes
  import opened Options
  import opened FileFraming

  datatype ErrorCode = Success | FileNotFound | SendError

  /** A file to send. `contents` is None when it cannot be opened; `pad` is what the
      padding bytes of its header happen to hold. */
  datatype Entry = Entry(name: seq<byte>, contents: Option<seq<byte>>, pad: seq<byte>)

  predicate ValidEntry(e: Entry) {
    |e.pad| == 3 && (e.contents.Some? ==> |e.contents.value| < Power256(8))
  }

  function HeaderOf(e: Entry): (header: seq<byte>)
    requires ValidEntry(e) && e.contents.Some?
    ensures |header| == HEADER_SIZE
  {
    Encode(FileHeader(e.name, |e.contents.value|), e.pad)
  }

  /** All the messages of a file. */
  function MessagesOf(e: Entry): seq<seq<byte>>
    requires ValidEntry(e) && e.contents.Some?
  {
    Messages(HeaderOf(e), e.contents.value)
  }

  /** The messages of a file, or None if it cannot be opened. */
  type Outgoing = Option<seq<seq<byte>>>

  function OutgoingOf(e: Entry): Outgoing
    requires ValidEntry(e)
  {
    if e.contents.None? then None else Some(MessagesOf(e))
  }

  function OutgoingOfAll(es: seq<Entry>): seq<Outgoing>
    requires forall e :: e in es ==> ValidEntry(e)
  {
    seq(|es|, i requires 0 <= i < |es| => OutgoingOf(es[i]))
  }

  /** The messages sent for one file and the result, when the transport accepts `ready` more messages. */
  function SendOne(file: Outgoing, ready: nat): (seq<seq<byte>>, ErrorCode) {
    if file.None? then ([], FileNotFound)
    else if |file.value| <= ready then (file.value, Success)
    else (file.value[..ready], SendError)
  }

  /** The same for a directory; `complete` is false if listing it throws after these files. */
  function SendAll(files: seq<Outgoing>, ready: nat, complete: bool): (seq<seq<byte>>, ErrorCode)
    decreases |files|
  {
    if files == [] then
      ([], if complete then Success else FileNotFound)
    else
      var (ms, code) := SendOne(files[0], ready);
      if code != Success then
        (ms, code)
      else
        var (rest, code') := SendAll(files[1..], ready - |ms|, complete);
        (ms + rest, code')
  }

  /** The calls of the progress callback for a whole file. */
  function Reports(name: seq<byte>, size: nat): seq<(seq<byte>, nat, nat)> {
    var ts := Totals(0, size);
    seq(|ts|, i requires 0 <= i < |ts| => (name, ts[i], size))
  }

  // ---- The result of a directory, in one look ----

  /** How many of n messages a transport accepts that is ready for `ready` more. */
  function Accepted(n: nat, ready: nat): nat {
    if n <= ready then n else ready
  }

  /** All the messages of the files before the first that cannot be opened. */
  function UntilMissing(files: seq<Outgoing>): seq<seq<byte>> {
    if files == [] || files[0].None? then [] else files[0].value + UntilMissing(files[1..])
  }

  predicate NoneMissing(files: seq<Outgoing>) {
    forall i :: 0 <= i < |files| ==> files[i].Some?
  }

  /** What is sent and returned, whatever goes wrong first: the messages in their order as long
      as files can be opened and the transport accepts; success exactly if all files
      could be opened, every message was accepted, and the listing was complete. */
  lemma {:induction false} DirectoryResult(files: seq<Outgoing>, ready: nat, complete: bool)
    ensures var all, (sent, code) := UntilMissing(files), SendAll(files, ready, complete);
            && sent == all[..Accepted(|all|, ready)]
            && (code == SendError <==> |all| > ready)
            && (code == Success <==> |all| <= ready && NoneMissing(files) && complete)
    decreases |files|
  {
    if files != [] && files[0].Some? {
      var ms, rest := files[0].value, UntilMissing(files[1..]);
      if |ms| <= ready {
        DirectoryResult(files[1..], ready - |ms|, complete);
        assert NoneMissing(files) <==> NoneMissing(files[1..]);
      }
    }
  }

  lemma NoneMissingIff(es: seq<Entry>)
    requires forall e :: e in es ==> ValidEntry(e)
    ensures NoneMissing(OutgoingOfAll(es)) <==> forall e :: e in es ==> e.contents.Some?
  {
    forall i | 0 <= i < |es|
      ensures OutgoingOfAll(es)[i].Some? <==> es[i].contents.Some?
    {
    }
  }

  // ---- What arrives ----

  /** What a receiver appends to the file x when all these files are sent, in this order. */
  function Appended(es: seq<Entry>, x: seq<byte>): seq<byte> {
    if es == [] then
      []
    else
      (if ArrivalName(es[0].name) == x then OrEmpty(es[0].contents) else []) + Appended(es[1..], x)
  }

  predicate Arrives(es: seq<Entry>, x: seq<byte>) {
    exists e :: e in es && ArrivalName(e.name) == x
  }

  lemma EntryArrives(files: Files, blocked: set<seq<byte>>, e: Entry)
    requires ValidEntry(e) && e.contents.Some?
    ensures ReceiveAll(files, blocked, MessagesOf(e)) == Append(files, blocked, ArrivalName(e.name), e.contents.value)
  {
    var ms := MessagesOf(e);
    MessageCount(HeaderOf(e), e.contents.value);
    HeaderAddresses(blocked, e.name, |e.contents.value|, e.pad);
    FileArrives(files, blocked, HeaderOf(e), ArrivalName(e.name), e.contents.value, |ms|);
    AllCarried(HeaderOf(e), e.contents.value);
    assert ms[..|ms|] == ms;
  }

  /** Of a file whose sending broke off, exactly what the accepted messages carry arrives. */
  lemma BrokenOffFileArrives(files: Files, blocked: set<seq<byte>>, e: Entry, ready: nat)
    requires ValidEntry(e) && SendOne(OutgoingOf(e), ready).1 == SendError
    ensures ReceiveAll(files, blocked, SendOne(OutgoingOf(e), ready).0) ==
            if ready == 0 then files
            else Append(files, blocked, ArrivalName(e.name), Carried(e.contents.value, ready))
  {
    MessageCount(HeaderOf(e), e.contents.value);
    if ready > 0 {
      HeaderAddresses(blocked, e.name, |e.contents.value|, e.pad);
      FileArrives(files, blocked, HeaderOf(e), ArrivalName(e.name), e.contents.value, ready);
    }
  }

  lemma ArrivesCons(es: seq<Entry>, x: seq<byte>)
    requires es != []
    ensures Arrives(es, x) <==> ArrivalName(es[0].name) == x || Arrives(es[1..], x)
  {
    assert es == [es[0]] + es[1..];
    assert es[0] in es;
  }

  lemma {:induction false} NothingAppended(es: seq<Entry>, x: seq<byte>)
    requires !Arrives(es, x)
    ensures Appended(es, x) == []
    decreases |es|
  {
    if es != [] {
      ArrivesCons(es, x);
      NothingAppended(es[1..], x);
    }
  }

  /** The files after every entry has been appended in turn. */
  function Delivered(files: Files, blocked: set<seq<byte>>, es: seq<Entry>): Files
    decreases |es|
  {
    if es == [] then
      files
    else
      Delivered(Append(files, blocked, ArrivalName(es[0].name), OrEmpty(es[0].contents)), blocked, es[1..])
  }

  lemma FirstFileSent(files: seq<Outgoing>, ready: nat) returns (left: nat)
    requires files != [] && SendAll(files, ready, true).1 == Success
    ensures files[0].Some? && SendAll(files[1..], left, true).1 == Success
    ensures SendAll(files, ready, true).0 == files[0].value + SendAll(files[1..], left, true).0
  {
    left := ready - |files[0].value|;
  }

  /** A directory that was sent in full arrives file by file. */
  lemma {:induction false} DirectoryDelivered(files: Files, blocked: set<seq<byte>>, es: seq<Entry>, ready: nat)
    requires forall e :: e in es ==> ValidEntry(e)
    requires SendAll(OutgoingOfAll(es), ready, true).1 == Success
    ensures forall e :: e in es ==> e.contents.Some?
    ensures ReceiveAll(files, blocked, SendAll(OutgoingOfAll(es), ready, true).0) == Delivered(files, blocked, es)
    decreases |es|
  {
    if es != [] {
      var left := FirstFileSent(OutgoingOfAll(es), ready);
      assert OutgoingOfAll(es)[0] == OutgoingOf(es[0]);
      assert OutgoingOfAll(es)[1..] == OutgoingOfAll(es[1..]);
      EntryArrives(files, blocked, es[0]);
      ReceiveAllConcat(files, blocked, MessagesOf(es[0]), SendAll(OutgoingOfAll(es[1..]), left, true).0);
      DirectoryDelivered(Append(files, blocked, ArrivalName(es[0].name), es[0].contents.value), blocked, es[1..], left);
      assert es == [es[0]] + es[1..];
    }
  }

  function OrEmpty(file: Option<seq<byte>>): seq<byte> {
    if file.Some? then file.value else []
  }

  /** What becomes of one file while the entries are appended. */
  function Gains(file: Option<seq<byte>>, es: seq<Entry>, x: seq<byte>): Option<seq<byte>>
    decreases |es|
  {
    if es == [] then
      file
    else
      Gains(if ArrivalName(es[0].name) == x then Some(OrEmpty(file) + OrEmpty(es[0].contents)) else file, es[1..], x)
  }

  lemma {:induction false} DeliveredGains(files: Files, blocked: set<seq<byte>>, es: seq<Entry>, x: seq<byte>)
    ensures Lookup(Delivered(files, blocked, es), x) ==
            if x in blocked then Lookup(files, x) else Gains(Lookup(files, x), es, x)
    decreases |es|
  {
    if es != [] {
      var name, data := ArrivalName(es[0].name), OrEmpty(es[0].contents);
      AppendLookup(files, blocked, name, data, x);
      DeliveredGains(Append(files, blocked, name, data), blocked, es[1..], x);
    }
  }

  lemma AppendInTwo(a: seq<byte>, b: seq<byte>, c: seq<byte>)
    ensures (a + b) + c == a + (b + c)
    ensures b + [] == b
  {
  }

  lemma {:induction false} GainsAppended(file: Option<seq<byte>>, es: seq<Entry>, x: seq<byte>)
    ensures Gains(file, es, x) == if Arrives(es, x) then Some(OrEmpty(file) + Appended(es, x)) else file
    decreases |es|
  {
    if es != [] {
      ArrivesCons(es, x);
      if ArrivalName(es[0].name) == x {
        var data, rest := OrEmpty(es[0].contents), Appended(es[1..], x);
        GainsAppended(Some(OrEmpty(file) + data), es[1..], x);
        AppendInTwo(OrEmpty(file), data, rest);
        if !Arrives(es[1..], x) {
          NothingAppended(es[1..], x);
        }
      } else {
        GainsAppended(file, es[1..], x);
        assert Appended(es, x) == Appended(es[1..], x);
      }
    }
  }

  lemma DeliveredLookup(files: Files, blocked: set<seq<byte>>, es: seq<Entry>, x: seq<byte>)
    ensures Lookup(Delivered(files, blocked, es), x) ==
            if x in blocked || !Arrives(es, x) then Lookup(files, x) else Some(Contents(files, x) + Appended(es, x))
  {
    DeliveredGains(files, blocked, es, x);
    GainsAppended(Lookup(files, x), es, x);
  }

  /** The law of a directory that was sent in full, whatever the names are: each
      file that can be written gains what was sent under its arrival name, in order,
      every other file is as it was, and no further file appears. */
  lemma DirectoryArrives(files: Files, blocked: set<seq<byte>>, es: seq<Entry>, ready: nat, x: seq<byte>)
    requires forall e :: e in es ==> ValidEntry(e)
    requires SendAll(OutgoingOfAll(es), ready, true).1 == Success
    ensures Lookup(ReceiveAll(files, blocked, SendAll(OutgoingOfAll(es), ready, true).0), x) ==
            if x in blocked || !Arrives(es, x) then Lookup(files, x) else Some(Contents(files, x) + Appended(es, x))
  {
    DirectoryDelivered(files, blocked, es, ready);
    DeliveredLookup(files, blocked, es, x);
  }

  predicate DistinctNames(es: seq<Entry>) {
    && (forall i :: 0 <= i < |es| ==> 0 !in es[i].name && |es[i].name| <= NAME_SIZE - 1)
    && (forall i, j :: 0 <= i < j < |es| ==> es[i].name != es[j].name)
  }

  lemma {:induction false} AppendedDistinct(es: seq<Entry>, i: nat)
    requires DistinctNames(es) && i < |es| && es[i].contents.Some?
    ensures Appended(es, es[i].name) == es[i].contents.value
    decreases |es|
  {
    NameSurvivesIff(es[0].name);
    if i > 0 {
      AppendedDistinct(es[1..], i - 1);
    } else {
      forall e | e in es[1..]
        ensures ArrivalName(e.name) != es[0].name
      {
        var j :| 1 <= j < |es| && es[j] == e;
        NameSurvivesIff(e.name);
      }
      NothingAppended(es[1..], es[0].name);
    }
  }

  /** Round trip: with distinct names, free of NULs and at most 255 bytes long, each
      file arrives as its old contents followed by exactly the contents sent, and
      every file of another name is unchanged. */
  lemma DirectoryRoundTrip(files: Files, es: seq<Entry>, ready: nat)
    requires forall e :: e in es ==> ValidEntry(e)
    requires SendAll(OutgoingOfAll(es), ready, true).1 == Success && DistinctNames(es)
    ensures var files' := ReceiveAll(files, {}, SendAll(OutgoingOfAll(es), ready, true).0);
            && (forall i :: 0 <= i < |es| ==>
                  && es[i].contents.Some? && es[i].name in files'
                  && files'[es[i].name] == Contents(files, es[i].name) + es[i].contents.value)
            && (forall x :: (forall i :: 0 <= i < |es| ==> es[i].name != x) ==> Lookup(files', x) == Lookup(files, x))
  {
    DirectoryDelivered(files, {}, es, ready);
    DeliveredDistinct(files, es);
  }

  lemma DeliveredDistinct(files: Files, es: seq<Entry>)
    requires (forall e :: e in es ==> e.contents.Some?) && DistinctNames(es)
    ensures var files' := Delivered(files, {}, es);
            && (forall i :: 0 <= i < |es| ==>
                  && es[i].contents.Some? && es[i].name in files'
                  && files'[es[i].name] == Contents(files, es[i].name) + es[i].contents.value)
            && (forall x :: (forall i :: 0 <= i < |es| ==> es[i].name != x) ==> Lookup(files', x) == Lookup(files, x))
  {
    var files' := Delivered(files, {}, es);
    forall i | 0 <= i < |es|
      ensures es[i].contents.Some? && es[i].name in files'
      ensures files'[es[i].name] == Contents(files, es[i].name) + es[i].contents.value
    {
      NameSurvivesIff(es[i].name);
      assert es[i] in es && Arrives(es, es[i].name);
      DeliveredLookup(files, {}, es, es[i].name);
      AppendedDistinct(es, i);
    }
    forall x | forall i :: 0 <= i < |es| ==> es[i].name != x
      ensures Lookup(files', x) == Lookup(files, x)
    {
      forall e | e in es
        ensures ArrivalName(e.name) != x
      {
        NameSurvivesIff(e.name);
      }
      DeliveredLookup(files, {}, es, x);
    }
  }

  // ---- The loop of sendFileInternal ----

  lemma NextMessage(header: seq<byte>, contents: seq<byte>, name: seq<byte>, k: nat)
    requires k * CHUNK_SIZE <= |contents|
    ensures var ms, reports, from := Messages(header, contents), Reports(name, |contents|), k * CHUNK_SIZE;
            var upTo := from + ChunkLength(|contents| - from);
            && k < |ms| == |reports|
            && ms[k] == header + contents[from..upTo]
            && reports[k] == (name, upTo, |contents|)
            && (k + 1 == |ms| <==> upTo - from < CHUNK_SIZE)
  {
    MessageAt(header, contents, k);
    TotalAt(0, |contents|, k);
    MessageCount(header, contents);
    TotalsAscend(0, |contents|);
  }

  lemma OneMore<T>(base: seq<T>, xs: seq<T>, k: nat)
    requires k < |xs|
    ensures base + xs[..k] + [xs[k]] == base + xs[..k + 1]
  {
    assert xs[..k + 1] == xs[..k] + [xs[k]];
  }

  // ---- The loop of sendDirectory ----

  /** After k files the rest of the directory is still to be sent. */
  predicate SentSoFar(files: seq<Outgoing>, ready0: nat, complete: bool, k: nat, sent: seq<seq<byte>>, ready: nat) {
    && k <= |files|
    && var (rest, code) := SendAll(files[k..], ready, complete);
       SendAll(files, ready0, complete) == (sent + rest, code)
  }

  lemma SentSoFarStart(files: seq<Outgoing>, ready: nat, complete: bool)
    ensures SentSoFar(files, ready, complete, 0, [], ready)
  {
    assert files[0..] == files;
    assert [] + SendAll(files, ready, complete).0 == SendAll(files, ready, complete).0;
  }

  lemma SentSoFarStep(files: seq<Outgoing>, ready0: nat, complete: bool, k: nat, sent: seq<seq<byte>>, ready: nat)
    requires SentSoFar(files, ready0, complete, k, sent, ready) && k < |files|
    ensures var (ms, code) := SendOne(files[k], ready);
            && (code == Success ==> |ms| <= ready && SentSoFar(files, ready0, complete, k + 1, sent + ms, ready - |ms|))
            && (code != Success ==> SendAll(files, ready0, complete) == (sent + ms, code))
  {
    assert files[k..][0] == files[k] && files[k..][1..] == files[k + 1..];
    var (ms, code) := SendOne(files[k], ready);
    if code == Success {
      var rest := SendAll(files[k + 1..], ready - |ms|, complete).0;
      assert sent + (ms + rest) == (sent + ms) + rest;
    }
  }

  // ---- The objects ----

  /** An input stream on a file; a read that gets less than it asked for sets `eof`. */
  class InputFile {
    const contents: seq<byte>
    var position: nat
    var eof: bool

    constructor (contents: seq<byte>)
      ensures this.contents == contents && position == 0 && !eof
    {
      this.contents, position, eof := contents, 0, false;
    }

    method Read(buffer: array<byte>, offset: nat, n: nat) returns (got: nat)
      requires position <= |contents| && offset + n <= buffer.Length
      modifies this, buffer
      ensures got == if n <= |contents| - old(position) then n else |contents| - old(position)
      ensures position == old(position) + got <= |contents|
      ensures eof == (old(eof) || got < n)
      ensures buffer[..offset] == old(buffer[..offset])
      ensures buffer[offset..offset + got] == contents[old(position)..position]
    {
      got := if n <= |contents| - position then n else |contents| - position;
      var k := 0;
      while k < got
        invariant 0 <= k <= got
        invariant buffer[..offset] == old(buffer[..offset])
        invariant buffer[offset..offset + k] == contents[position..position + k]
        modifies buffer
      {
        buffer[offset + k] := contents[position + k];
        k := k + 1;
      }
      position := position + got;
      eof := eof || got < n;
    }
  }

  class KCPWrapper {
    var initialized: bool
    var ready: nat                            // how many more messages ikcp_send accepts
    var outbox: seq<seq<byte>>                // the messages it accepted, in order
    var progress: seq<(seq<byte>, nat, nat)>  // the calls of the progress callback

    constructor (initialized: bool, ready: nat)
      ensures this.initialized == initialized && this.ready == ready && outbox == [] && progress == []
    {
      this.initialized, this.ready, outbox, progress := initialized, ready, [], [];
    }

    function Ready(): nat
      reads this
    {
      if initialized then ready else 0
    }

    method Send(data: seq<byte>) returns (ok: bool)
      modifies this`ready, this`outbox
      ensures ok == (data != [] && old(Ready()) > 0)
      ensures Ready() == old(Ready()) - if ok then 1 else 0
      ensures outbox == if ok then old(outbox) + [data] else old(outbox)
    {
      ok := initialized && data != [] && ready > 0;
      if ok {
        ready := ready - 1;
        outbox := outbox + [data];
      }
    }

    /** One round of the loop: the buffer gets the header and the next chunk, and is sent. */
    method SendChunk(header: array<byte>, file: InputFile, buffer: array<byte>) returns (ok: bool, readSize: nat)
      requires header.Length == HEADER_SIZE && buffer.Length == HEADER_SIZE + CHUNK_SIZE && buffer != header
      requires file.position <= |file.contents| && !file.eof
      modifies this`ready, this`outbox, file, buffer
      ensures readSize == ChunkLength(|file.contents| - old(file.position))
      ensures file.position == old(file.position) + readSize <= |file.contents|
      ensures file.eof == (readSize < CHUNK_SIZE)
      ensures ok == (old(Ready()) > 0)
      ensures Ready() == old(Ready()) - if ok then 1 else 0
      ensures outbox == if ok then old(outbox) + [header[..] + file.contents[old(file.position)..file.position]] else old(outbox)
    {
      forall i | 0 <= i < HEADER_SIZE {
        buffer[i] := header[i];
      }
      assert buffer[..HEADER_SIZE] == header[..];
      readSize := file.Read(buffer, HEADER_SIZE, CHUNK_SIZE);
      assert buffer[..HEADER_SIZE + readSize] == buffer[..HEADER_SIZE] + buffer[HEADER_SIZE..HEADER_SIZE + readSize];
      ok := Send(buffer[..HEADER_SIZE + readSize]);
    }

    /** Round k of the loop: the next chunk is sent and, if it was accepted, reported. */
    method SendNext(header: array<byte>, file: InputFile, buffer: array<byte>, name: seq<byte>, totalSent: nat, ghost k: nat)
      returns (ok: bool, total: nat)
      requires header.Length == HEADER_SIZE && buffer.Length == HEADER_SIZE + CHUNK_SIZE && buffer != header
      requires file.position == totalSent == k * CHUNK_SIZE <= |file.contents| && !file.eof
      modifies this`ready, this`outbox, this`progress, file, buffer
      ensures k < |Messages(header[..], file.contents)| == |Reports(name, |file.contents|)|
      ensures totalSent <= total == file.position <= |file.contents|
      ensures if file.eof then k + 1 == |Messages(header[..], file.contents)| else total == (k + 1) * CHUNK_SIZE
      ensures ok == (old(Ready()) > 0)
      ensures Ready() == old(Ready()) - if ok then 1 else 0
      ensures outbox == if ok then old(outbox) + [Messages(header[..], file.contents)[k]] else old(outbox)
      ensures progress == if ok then old(progress) + [Reports(name, |file.contents|)[k]] else old(progress)
    {
      NextMessage(header[..], file.contents, name, k);
      var readSize: nat;
      ok, readSize := SendChunk(header, file, buffer);
      total := totalSent + readSize;
      if ok {
        progress := progress + [(name, total, |file.contents|)];
      }
    }

    /** The loop of sendFileInternal; it ends for every file size. */
    method SendChunks(header: array<byte>, file: InputFile, name: seq<byte>) returns (code: ErrorCode)
      requires header.Length == HEADER_SIZE && file.position == 0 && !file.eof
      modifies this`ready, this`outbox, this`progress, file
      ensures |Reports(name, |file.contents|)| == |Messages(header[..], file.contents)|
      ensures var ms, k := Messages(header[..], file.contents), Accepted(|Messages(header[..], file.contents)|, old(Ready()));
              && code == (if k == |ms| then Success else SendError)
              && Ready() == old(Ready()) - k
              && outbox == old(outbox) + ms[..k]
              && progress == old(progress) + Reports(name, |file.contents|)[..k]
    {
      ghost var h := header[..];
      ghost var ms, reports := Messages(h, file.contents), Reports(name, |file.contents|);
      ghost var outbox0, progress0, ready0 := outbox, progress, Ready();
      MessageCount(h, file.contents);
      TotalsAscend(0, |file.contents|);
      var buffer := new byte[HEADER_SIZE + CHUNK_SIZE](_ => 0);
      var totalSent := 0;
      ghost var k := 0;
      while !file.eof
        invariant file.position == totalSent <= |file.contents|
        invariant k <= |ms| == |reports| && Ready() == ready0 - k
        invariant outbox == outbox0 + ms[..k] && progress == progress0 + reports[..k]
        invariant if file.eof then k == |ms| else totalSent == k * CHUNK_SIZE
        invariant fresh(buffer) && header[..] == h
        decreases |file.contents| - totalSent, !file.eof
      {
        var ok, total := SendNext(header, file, buffer, name, totalSent, k);
        if !ok {
          return SendError;
        }
        OneMore(outbox0, ms, k);
        OneMore(progress0, reports, k);
        totalSent, k := total, k + 1;
      }
      return Success;
    }

    /** sendFileInternal; `sent` are the messages the transport accepted. */
    method SendFileInternal(e: Entry) returns (code: ErrorCode, ghost sent: seq<seq<byte>>)
      requires ValidEntry(e)
      modifies this`ready, this`outbox, this`progress
      ensures (sent, code) == SendOne(OutgoingOf(e), old(Ready()))
      ensures outbox == old(outbox) + sent
      ensures Ready() == old(Ready()) - |sent|
      ensures |sent| <= |Reports(e.name, |OrEmpty(e.contents)|)|
      ensures progress == old(progress) + Reports(e.name, |OrEmpty(e.contents)|)[..|sent|]
    {
      if e.contents.None? {
        return FileNotFound, [];
      }
      var file := new InputFile(e.contents.value);
      var bytes := HeaderOf(e);
      var header := new byte[HEADER_SIZE](i requires 0 <= i < HEADER_SIZE => bytes[i]);
      assert header[..] == bytes;
      ghost var ms := MessagesOf(e);
      sent := ms[..Accepted(|ms|, Ready())];
      assert ms[..|ms|] == ms;
      code := SendChunks(header, file, e.name);
    }

    /** File k of a directory, of which the messages in `before` were accepted earlier. */
    method SendNextFile(e: Entry, ghost files: seq<Outgoing>, ghost complete: bool, ghost k: nat,
                        ghost ready0: nat, ghost outbox0: seq<seq<byte>>, ghost before: seq<seq<byte>>)
      returns (code: ErrorCode, ghost sent: seq<seq<byte>>)
      requires ValidEntry(e) && k < |files| && files[k] == OutgoingOf(e)
      requires SentSoFar(files, ready0, complete, k, before, Ready()) && outbox == outbox0 + before
      modifies this`ready, this`outbox, this`progress
      ensures outbox == outbox0 + sent
      ensures code == Success ==> SentSoFar(files, ready0, complete, k + 1, sent, Ready())
      ensures code != Success ==> SendAll(files, ready0, complete) == (sent, code)
    {
      SentSoFarStep(files, ready0, complete, k, before, Ready());
      ghost var ms;
      code, ms := SendFileInternal(e);
      sent := before + ms;
      assert (outbox0 + before) + ms == outbox0 + (before + ms);
    }

    method SendDirectory(es: seq<Entry>, complete: bool) returns (code: ErrorCode)
      requires forall e :: e in es ==> ValidEntry(e)
      modifies this`ready, this`outbox, this`progress
      ensures code == SendAll(OutgoingOfAll(es), old(Ready()), complete).1
      ensures outbox == old(outbox) + SendAll(OutgoingOfAll(es), old(Ready()), complete).0
      ensures code == Success <==> complete && (forall e :: e in es ==> e.contents.Some?) &&
                                   |UntilMissing(OutgoingOfAll(es))| <= old(Ready())
    {
      DirectoryResult(OutgoingOfAll(es), Ready(), complete);
      NoneMissingIff(es);
      var k := 0;
      ghost var files, sent: seq<seq<byte>> := OutgoingOfAll(es), [];
      ghost var ready0, outbox0 := Ready(), outbox;
      SentSoFarStart(files, ready0, complete);
      while k < |es|
        invariant 0 <= k <= |es|
        invariant outbox == outbox0 + sent
        invariant SentSoFar(files, ready0, complete, k, sent, Ready())
      {
        code, sent := SendNextFile(es[k], files, complete, k, ready0, outbox0, sent);
        if code != Success {
          return;
        }
        k := k + 1;
      }
      assert files[k..] == [] && sent + [] == sent;
      code := if complete then Success else FileNotFound;
    }
  }

  class FileReceiver {
    const blocked: set<seq<byte>>
    var files: Files

    constructor (files: Files, blocked: set<seq<byte>>)
      ensures this.files == files && this.blocked == blocked
    {
      this.files, this.blocked := files, blocked;
    }

    method OnDataReceived(data: seq<byte>)
      modifies this
      ensures files == Receive(old(files), blocked, data)
      ensures |data| < HEADER_SIZE || data[..4] != MAGIC_BYTES ==> files == old(files)
      ensures |data| >= HEADER_SIZE && data[..4] == MAGIC_BYTES ==>
                forall x :: Lookup(files, x) ==
                            if x == NameIn(data) && x !in blocked then Some(Contents(old(files), x) + data[HEADER_SIZE..])
                            else Lookup(old(files), x)
    {
      ReceiveLaw(files, blocked, data);
      if |data| < HEADER_SIZE {
        return;
      }
      var header := Decode(data);
      if header.magic != MAGIC {
        return;
      }
      var name := NameIn(data);
      if name in blocked {
        return;
      }
      files := files[name := Contents(files, name) + data[HEADER_SIZE..]];
    }

    /** The messages are delivered whole and in order. */
    method Deliver(messages: seq<seq<byte>>)
      modifies this
      ensures files == ReceiveAll(old(files), blocked, messages)
    {
      var k := 0;
      while k < |messages|
        invariant 0 <= k <= |messages|
        invariant ReceiveAll(files, blocked, messages[k..]) == ReceiveAll(old(files), blocked, messages)
      {
        OnDataReceived(messages[k]);
        k := k + 1;
      }
    }
  }

  /** A whole transfer: what the sender's messages do to the receiver's files. */
  method Transfer(wrapper: KCPWrapper, receiver: FileReceiver, es: seq<Entry>) returns (code: ErrorCode)
    requires forall e :: e in es ==> ValidEntry(e)
    requires wrapper.outbox == [] && receiver.blocked == {} && DistinctNames(es)
    modifies wrapper, receiver
    ensures code == Success ==>
              && (forall i :: 0 <= i < |es| ==>
                    && es[i].contents.Some? && es[i].name in receiver.files
                    && receiver.files[es[i].name] == Contents(old(receiver.files), es[i].name) + es[i].contents.value)
              && (forall x :: (forall i :: 0 <= i < |es| ==> es[i].name != x) ==>
                    Lookup(receiver.files, x) == Lookup(old(receiver.files), x))
  {
    ghost var ready := wrapper.Ready();
    code := wrapper.SendDirectory(es, true);
    assert wrapper.outbox == SendAll(OutgoingOfAll(es), ready, true).0;
    receiver.Deliver(wrapper.outbox);
    if code == Success {
      DirectoryRoundTrip(old(receiver.files), es, ready);
    }
  }
}
