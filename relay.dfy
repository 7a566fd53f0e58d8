/**
 * The two readiness callbacks of telnet-irc.c, invoked directly (the event
 * loop that calls them is not part of this model). Each drains its source
 * while the FIONREAD count is positive, reading at most 1024 bytes per pass
 * into a fresh zeroed 1025-byte buffer. `socketEventCallback` routes every
 * chunk through `processPing`; `stdinEventCallback` forwards every chunk to
 * the socket.
 */
module Relay {
  import opened Wrappers
  import opened Sequences
  import opened CStrings
  import opened Ping

  /** The byte count each `read` asks for. */
  const READ_SIZE: nat := 1024
  /** The size of each `calloc`'d read buffer: one more, for the terminator. */
  const BUFFER_SIZE: nat := 1025

  /** The bytes one `read` of a drain pass can return. */
  type Chunk = c: seq<byte> | |c| <= READ_SIZE

  /**
   * The chunks a drain loop takes from `s`, in order: each pass reads
   * `min(1024, available)` bytes.
   */
  function Chunks(s: seq<byte>): (cs: seq<Chunk>)
    ensures forall i :: 0 <= i < |cs| ==> 0 < |cs[i]|
    decreases |s|
  {
    if s == [] then []
    else
      var n := if |s| < READ_SIZE then |s| else READ_SIZE;
      [s[..n]] + Chunks(s[n..])
  }

  /** The bytes of a sequence of chunks, concatenated in order. */
  function Flatten(cs: seq<seq<byte>>): seq<byte> {
    if cs == [] then [] else cs[0] + Flatten(cs[1..])
  }

  /** The chunks taken, in order, concatenate to exactly the input drained. */
  lemma {:induction false} ChunksFlatten(s: seq<byte>)
    ensures Flatten(Chunks(s)) == s
    decreases |s|
  {
    if s != [] {
      var n := if |s| < READ_SIZE then |s| else READ_SIZE;
      ChunksFlatten(s[n..]);
      assert Chunks(s)[1..] == Chunks(s[n..]);
      assert s == s[..n] + s[n..];
    }
  }

  /** The drain loop makes one pass per started block of 1024 bytes. */
  lemma {:induction false} ChunksCount(s: seq<byte>)
    ensures |Chunks(s)| == (|s| + READ_SIZE - 1) / READ_SIZE
    decreases |s|
  {
    if s != [] {
      var n := if |s| < READ_SIZE then |s| else READ_SIZE;
      ChunksCount(s[n..]);
    }
  }

  /**
   * The buffer a pass hands on: the chunk read into a zeroed 1025-byte
   * buffer. Its last byte is never written, so it is always NUL-terminated,
   * and the C string it holds is the chunk up to its first NUL.
   */
  function ReadBuffer(chunk: Chunk): (buf: seq<byte>)
    ensures |buf| == BUFFER_SIZE
    ensures buf[|chunk|] == NUL && buf[BUFFER_SIZE - 1] == NUL
    ensures Strlen(buf) <= |chunk|
    ensures CStr(buf) == CStr(chunk)
  {
    CStrPadded(chunk, BUFFER_SIZE - |chunk|);
    chunk + Zeros(BUFFER_SIZE - |chunk|)
  }

  /** What handling one chunk produces: the writes to the socket, the bytes to stdout. */
  datatype Effects = Effects(socket: seq<seq<byte>>, stdout: seq<byte>)

  /**
   * The routing in `socketEventCallback`: when `processPing` reports a PING,
   * its one reply is the only effect; otherwise the C string in the buffer
   * is printed and nothing goes to the socket.
   */
  function RoutePeer(buf: seq<byte>): (e: Effects)
    ensures Contains(CStr(buf), PING) ==>
              e.stdout == [] && e.socket == [ProcessPing(buf).reply.value]
    ensures !Contains(CStr(buf), PING) ==> e.socket == [] && e.stdout == CStr(buf)
  {
    var outcome := ProcessPing(buf);
    var written := match outcome.reply
      case Some(reply) => [reply]
      case None => [];
    Effects(written, if !outcome.found then CStr(buf) else [])
  }

  /** The effects of the peer callback over a sequence of chunks, in order. */
  function PeerEffects(cs: seq<Chunk>): Effects
  {
    if cs == [] then Effects([], [])
    else
      var first := RoutePeer(ReadBuffer(cs[0]));
      var others := PeerEffects(cs[1..]);
      Effects(first.socket + others.socket, first.stdout + others.stdout)
  }

  /** Unfolds `PeerEffects` by its first chunk. */
  lemma PeerEffectsFirst(cs: seq<Chunk>)
    requires cs != []
    ensures PeerEffects(cs).socket == RoutePeer(ReadBuffer(cs[0])).socket + PeerEffects(cs[1..]).socket
    ensures PeerEffects(cs).stdout == RoutePeer(ReadBuffer(cs[0])).stdout + PeerEffects(cs[1..]).stdout
  {
  }

  /** The write `stdinEventCallback` makes for one buffer: `strlen(data)` bytes. */
  function StdinWrite(buf: seq<byte>): (w: seq<byte>)
    ensures w <= buf && NoNul(w)
    ensures |w| == |buf| || buf[|w|] == NUL
  {
    CStr(buf)
  }

  /** The writes of the stdin callback over a sequence of chunks, in order. */
  function StdinWrites(cs: seq<Chunk>): seq<seq<byte>>
  {
    if cs == [] then [] else [StdinWrite(ReadBuffer(cs[0]))] + StdinWrites(cs[1..])
  }

  /** A reply as `processPing` composes it: "PONG " + token + "\n", the token free of whitespace. */
  ghost predicate IsPong(w: seq<byte>) {
    exists t :: w == PONG_PREFIX + t + [NEWLINE] && forall i :: 0 <= i < |t| ==> !IsSpace(t[i])
  }

  /**
   * At most one socket write per chunk, however many PINGs it holds, and
   * every one of them is a PONG reply.
   */
  lemma {:induction false} PeerRepliesAtMostOnePerChunk(cs: seq<Chunk>)
    ensures |PeerEffects(cs).socket| <= |cs|
    ensures forall i :: 0 <= i < |PeerEffects(cs).socket| ==> IsPong(PeerEffects(cs).socket[i])
  {
    if cs != [] {
      PeerRepliesAtMostOnePerChunk(cs[1..]);
      var buf := ReadBuffer(cs[0]);
      var first := RoutePeer(buf);
      if ProcessPing(buf).found {
        var t := ScanToken(CStr(buf));
        assert first.socket == [PONG_PREFIX + t + [NEWLINE]];
        assert IsPong(first.socket[0]);
      }
      var all := PeerEffects(cs).socket;
      var others := PeerEffects(cs[1..]).socket;
      assert all == first.socket + others;
      forall i | 0 <= i < |all| ensures IsPong(all[i]) {
        if i >= |first.socket| {
          assert all[i] == others[i - |first.socket|];
        }
      }
    }
  }

  /** A substring of a chunk is a substring of the input it was cut from. */
  lemma ContainsInfix(s: seq<byte>, lo: nat, hi: nat, p: seq<byte>)
    requires lo <= hi <= |s|
    requires Contains(s[lo..hi], p)
    ensures Contains(s, p)
  {
    var i :| OccursAt(s[lo..hi], p, i);
    var a := s[lo..hi];
    var inChunk, inInput := a[i..i + |p|], s[lo + i..lo + i + |p|];
    forall k | 0 <= k < |p| ensures inChunk[k] == inInput[k] {
      assert inChunk[k] == a[i + k] == s[lo + i + k];
    }
    assert inChunk == inInput;
    assert OccursAt(s, p, lo + i);
  }

  /**
   * Pass-through: peer input holding neither NUL nor "PING" reaches stdout
   * byte for byte, and nothing is written to the socket.
   */
  lemma {:induction false} PeerPassThrough(input: seq<byte>)
    requires NoNul(input) && !Contains(input, PING)
    ensures PeerEffects(Chunks(input)) == Effects([], input)
    decreases |input|
  {
    if input != [] {
      var n := if |input| < READ_SIZE then |input| else READ_SIZE;
      var chunk := input[..n];
      assert Chunks(input)[0] == chunk && Chunks(input)[1..] == Chunks(input[n..]);
      CStrOfNoNul(chunk);
      if Contains(chunk, PING) {
        ContainsInfix(input, 0, n, PING);
      }
      assert !Contains(CStr(ReadBuffer(chunk)), PING);
      if Contains(input[n..], PING) {
        assert input[n..|input|] == input[n..];
        ContainsInfix(input, n, |input|, PING);
      }
      PeerPassThrough(input[n..]);
      assert input == chunk + input[n..];
    }
  }

  /**
   * Stdin forwarding sends each chunk only up to its first NUL, because the
   * length passed to `write` is `strlen(data)`; a chunk with no NUL goes out
   * unchanged.
   */
  lemma StdinWriteTruncates(chunk: Chunk)
    ensures StdinWrite(ReadBuffer(chunk)) <= chunk
    ensures NoNul(StdinWrite(ReadBuffer(chunk)))
    ensures |StdinWrite(ReadBuffer(chunk))| < |chunk| ==> chunk[|StdinWrite(ReadBuffer(chunk))|] == NUL
    ensures NoNul(chunk) ==> StdinWrite(ReadBuffer(chunk)) == chunk
  {
    if NoNul(chunk) {
      CStrOfNoNul(chunk);
    }
  }

  /**
   * Stdin input holding no NUL is forwarded verbatim: the socket writes, one
   * per chunk, concatenate to the input.
   */
  lemma {:induction false} StdinVerbatim(input: seq<byte>)
    requires NoNul(input)
    ensures |StdinWrites(Chunks(input))| == |Chunks(input)|
    ensures Flatten(StdinWrites(Chunks(input))) == input
    decreases |input|
  {
    if input != [] {
      var n := if |input| < READ_SIZE then |input| else READ_SIZE;
      var chunk := input[..n];
      assert Chunks(input)[0] == chunk && Chunks(input)[1..] == Chunks(input[n..]);
      StdinWriteTruncates(chunk);
      StdinVerbatim(input[n..]);
      var ws := StdinWrites(Chunks(input));
      assert ws[0] == chunk && ws[1..] == StdinWrites(Chunks(input[n..]));
      assert input == chunk + input[n..];
    }
  }

  /**
   * An input stream standing for a file descriptor: `pending` holds the bytes
   * available to read right now, so `ioctl(fd, FIONREAD, &count)` gives its
   * length.
   */
  class ByteSource {
    var pending: seq<byte>

    constructor (input: seq<byte>)
      ensures pending == input
    {
      pending := input;
    }

    /** `ioctl(fd, FIONREAD, &count)`: the number of bytes available. */
    function Available(): (n: int)
      reads this
      ensures n >= 0
      ensures n == 0 <==> pending == []
    {
      |pending|
    }

    /** `read(fd, buf, max)`: moves up to `max` available bytes to the front of `buf`. */
    method Read(buf: array<byte>, max: nat) returns (n: nat)
      requires max <= buf.Length
      modifies this, buf
      ensures n == if |old(pending)| < max then |old(pending)| else max
      ensures buf[..] == old(pending)[..n] + old(buf[..])[n..]
      ensures pending == old(pending)[n..]
    {
      n := if |pending| < max then |pending| else max;
      forall i | 0 <= i < n {
        buf[i] := pending[i];
      }
      assert buf[..] == old(pending)[..n] + old(buf[..])[n..];
      pending := pending[n..];
    }
  }

  /**
   * The process's outputs: every `write` on the socket, in order (one entry
   * per call), and everything printed to stdout.
   */
  class Relay {
    var socket: seq<seq<byte>>
    var stdout: seq<byte>

    constructor ()
      ensures socket == [] && stdout == []
    {
      socket := [];
      stdout := [];
    }

    /** Reads one chunk from `src` into a fresh zeroed 1025-byte buffer. */
    method ReadChunk(src: ByteSource) returns (buf: seq<byte>, ghost chunk: Chunk)
      requires |src.pending| > 0
      modifies src
      ensures chunk == Chunks(old(src.pending))[0]
      ensures src.pending == old(src.pending)[|chunk|..]
      ensures Chunks(old(src.pending))[1..] == Chunks(src.pending)
      ensures buf == ReadBuffer(chunk)
    {
      var data := new byte[BUFFER_SIZE](_ => NUL);
      assert data[..] == Zeros(BUFFER_SIZE);
      ghost var before := src.pending;
      var n := src.Read(data, READ_SIZE);
      chunk := before[..n];
      buf := data[..];
      assert buf == chunk + Zeros(BUFFER_SIZE - n);
    }

    /**
     * `processPing(data)` with its side effect: when "PING" occurs in the
     * buffer's C string, the one reply is written to the socket and 1 is
     * returned; otherwise nothing is written.
     */
    method AnswerPing(data: seq<byte>) returns (found: bool)
      modifies this
      ensures found <==> Contains(CStr(data), PING)
      ensures socket == old(socket) + RoutePeer(data).socket
      ensures stdout == old(stdout)
    {
      var outcome := ProcessPing(data);
      match outcome.reply {
        case Some(reply) => socket := socket + [reply];
        case None =>
      }
      found := outcome.found;
    }

    /**
     * `socketEventCallback`: drains the peer. A chunk in which `processPing`
     * finds a PING yields its reply on the socket; any other chunk is printed.
     */
    method SocketEventCallback(peer: ByteSource)
      modifies this, peer
      ensures peer.pending == []
      ensures socket == old(socket) + PeerEffects(Chunks(old(peer.pending))).socket
      ensures stdout == old(stdout) + PeerEffects(Chunks(old(peer.pending))).stdout
    {
      ghost var total := PeerEffects(Chunks(peer.pending));
      var count := peer.Available();
      while count > 0
        invariant count == |peer.pending|
        invariant socket + PeerEffects(Chunks(peer.pending)).socket == old(socket) + total.socket
        invariant stdout + PeerEffects(Chunks(peer.pending)).stdout == old(stdout) + total.stdout
        decreases count
      {
        ghost var remaining := Chunks(peer.pending);
        var data, chunk := ReadChunk(peer);
        ghost var socket0, stdout0 := socket, stdout;
        var found := AnswerPing(data);
        if !found {
          stdout := stdout + CStr(data);
        }
        assert socket == socket0 + RoutePeer(data).socket;
        assert stdout == stdout0 + RoutePeer(data).stdout;
        PeerEffectsFirst(remaining);
        ghost var later := PeerEffects(Chunks(peer.pending));
        assert PeerEffects(remaining).socket == RoutePeer(data).socket + later.socket;
        assert PeerEffects(remaining).stdout == RoutePeer(data).stdout + later.stdout;
        AppendAssoc(socket0, RoutePeer(data).socket, later.socket);
        AppendAssoc(stdout0, RoutePeer(data).stdout, later.stdout);
        count := peer.Available();
      }
    }

    /**
     * `stdinEventCallback`: drains stdin, writing each buffer to the socket
     * with length `strlen(data)`. Nothing is printed.
     */
    method StdinEventCallback(input: ByteSource)
      modifies this, input
      ensures input.pending == []
      ensures socket == old(socket) + StdinWrites(Chunks(old(input.pending)))
      ensures stdout == old(stdout)
    {
      ghost var total := StdinWrites(Chunks(input.pending));
      var count := input.Available();
      while count > 0
        invariant count == |input.pending|
        invariant socket + StdinWrites(Chunks(input.pending)) == old(socket) + total
        invariant stdout == old(stdout)
        decreases count
      {
        ghost var remaining, socket0 := Chunks(input.pending), socket;
        var data, chunk := ReadChunk(input);
        socket := socket + [CStr(data)];
        ghost var later := StdinWrites(Chunks(input.pending));
        assert StdinWrites(remaining) == [StdinWrite(data)] + later;
        AppendAssoc(socket0, [StdinWrite(data)], later);
        count := input.Available();
      }
    }
  }
}
