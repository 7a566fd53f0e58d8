/**
 * The keep-alive responder `processPing` of telnet-irc.c: detect `PING` in a
 * chunk received from the peer, pull the origin token out with
 * `sscanf(data, "PING %s\n", source)` and answer `PONG <token>\n`.
 */
module Ping {
  import opened Wrappers
  import opened Sequences
  import opened CStrings

  /** "PING" */
  const PING: seq<byte> := [80, 73, 78, 71]
  /** "PONG " */
  const PONG_PREFIX: seq<byte> := [80, 79, 78, 71, 32]
  /** '\n' */
  const NEWLINE: byte := 10

  /** The C string `s` begins with the literal "PING". */
  predicate StartsWithPing(s: seq<byte>) {
    |s| >= |PING| && s[..|PING|] == PING
  }

  /**
   * What `sscanf(s, "PING %s\n", source)` leaves in the zeroed `source`:
   * the literal "PING" must match at offset 0; the blank of the format and
   * `%s` skip any whitespace; `%s` then takes the maximal run of bytes that
   * are not `isspace`. When the literal fails, or only whitespace is left,
   * `source` keeps its zeros, which read as the empty string.
   */
  function ScanToken(s: seq<byte>): (t: seq<byte>)
    ensures !StartsWithPing(s) ==> t == []
    ensures forall i :: 0 <= i < |t| ==> !IsSpace(t[i])
  {
    if StartsWithPing(s) then
      var rest := s[|PING|..];
      var k := SpaceRun(rest);
      rest[k..k + WordRun(rest[k..])]
    else
      []
  }

  /** The reply `sprintf(buffer, "PONG %s\n", source)` composes. */
  function PongReply(token: seq<byte>): (r: seq<byte>)
    ensures |r| == |token| + 6
    ensures r[..|PONG_PREFIX|] == PONG_PREFIX && r[|PONG_PREFIX|..|r| - 1] == token
    ensures r[|r| - 1] == NEWLINE
    ensures NoNul(token) ==> NoNul(r)
  {
    PONG_PREFIX + token + [NEWLINE]
  }

  /**
   * The result of `processPing` on a buffer: whether it returned 1, and the
   * one reply it wrote to the socket, if it wrote one.
   */
  datatype PingOutcome = PingOutcome(found: bool, reply: Option<seq<byte>>)

  /**
   * `processPing(data)`. Only the C string in `data` is looked at: it
   * reports a PING exactly when "PING" is a substring of it, and it writes
   * a reply exactly then.
   */
  function ProcessPing(data: seq<byte>): (r: PingOutcome)
    ensures r.found <==> Contains(CStr(data), PING)
    ensures r.reply.Some? <==> r.found
    ensures r.found ==> |r.reply.value| > |PONG_PREFIX|
    ensures r.found ==> r.reply.value[..|PONG_PREFIX|] == PONG_PREFIX
    ensures r.found ==> r.reply.value[|r.reply.value| - 1] == NEWLINE
  {
    var s := CStr(data);
    if Strstr(s, PING).Some? then
      PingOutcome(true, Some(PongReply(ScanToken(s))))
    else
      PingOutcome(false, None)
  }

  /**
   * How `sscanf` reads a C string made of "PING", whitespace, a token of
   * non-whitespace bytes, and then the end or more whitespace: the literal
   * matches, and the token is what `%s` stores.
   */
  lemma ScanLeading(s: seq<byte>, blank: seq<byte>, token: seq<byte>, rest: seq<byte>)
    requires s == PING + blank + token + rest
    requires forall i :: 0 <= i < |blank| ==> IsSpace(blank[i])
    requires token != [] && forall i :: 0 <= i < |token| ==> !IsSpace(token[i])
    requires rest == [] || IsSpace(rest[0])
    ensures OccursAt(s, PING, 0)
    ensures ScanToken(s) == token
  {
    var after := blank + (token + rest);
    assert s[..|PING|] == PING && s[|PING|..] == after by {
      AppendAssoc(PING + blank, token, rest);
      AppendAssoc(PING, blank, token + rest);
    }
    assert SpaceRun(after) == |blank| by {
      assert after[|blank|..] == token + rest;
      SpaceRunIs(after, |blank|);
    }
    var word := token + rest;
    assert after[|blank|..] == word;
    assert WordRun(word) == |token| by {
      assert rest != [] ==> word[|token|] == rest[0];
      WordRunIs(word, |token|);
    }
    assert word[..|token|] == token;
  }

  /**
   * A leading "PING", optional whitespace, then a token T that ends at the
   * end of the string or at whitespace (such as the "\r\n" closing the
   * line): the one reply is "PONG " + T + "\n".
   */
  lemma LeadingPingReply(data: seq<byte>, blank: seq<byte>, token: seq<byte>, rest: seq<byte>)
    requires CStr(data) == PING + blank + token + rest
    requires forall i :: 0 <= i < |blank| ==> IsSpace(blank[i])
    requires token != [] && forall i :: 0 <= i < |token| ==> !IsSpace(token[i])
    requires rest == [] || IsSpace(rest[0])
    ensures ProcessPing(data) == PingOutcome(true, Some(PONG_PREFIX + token + [NEWLINE]))
  {
    ScanLeading(CStr(data), blank, token, rest);
  }

  /**
   * The converse: a non-empty token is always such a run. It stands right
   * after the leading "PING" and the whitespace that follows it, and it is
   * followed by the end of the string or by whitespace.
   */
  lemma TokenDecomposition(s: seq<byte>) returns (blank: seq<byte>, rest: seq<byte>)
    requires ScanToken(s) != []
    ensures s == PING + blank + ScanToken(s) + rest
    ensures forall i :: 0 <= i < |blank| ==> IsSpace(blank[i])
    ensures rest == [] || IsSpace(rest[0])
  {
    var after := s[|PING|..];
    var k := SpaceRun(after);
    var word := after[k..];
    var n := WordRun(word);
    var t := word[..n];
    blank := after[..k];
    rest := word[n..];
    assert t == ScanToken(s) by {
      assert t == after[k..k + n];
    }
    assert forall i :: 0 <= i < |blank| ==> IsSpace(blank[i]) by {
      assert forall i :: 0 <= i < |blank| ==> blank[i] == after[i];
    }
    assert rest == [] || IsSpace(rest[0]) by {
      assert rest != [] ==> rest[0] == word[n];
    }
    assert s == PING + blank + t + rest by {
      SplitAt(s, |PING|);
      SplitAt(after, k);
      SplitAt(word, n);
      AppendAssoc(PING, blank, t + rest);
      AppendAssoc(PING + blank, t, rest);
    }
  }

  /**
   * "PING" somewhere other than offset 0 (a prefixed message, or a PING
   * inside a longer line): the literal of the format fails, `source` stays
   * zeroed and the one reply is "PONG \n".
   */
  lemma OffsetPingReply(data: seq<byte>, i: nat)
    requires i > 0 && OccursAt(CStr(data), PING, i)
    requires !StartsWithPing(CStr(data))
    ensures ProcessPing(data) == PingOutcome(true, Some(PONG_PREFIX + [NEWLINE]))
  {
  }

  /**
   * A leading "PING" followed by nothing but whitespace: `%s` finds no
   * token, and the one reply is "PONG \n".
   */
  lemma BlankPingReply(data: seq<byte>, blank: seq<byte>)
    requires CStr(data) == PING + blank
    requires forall i :: 0 <= i < |blank| ==> IsSpace(blank[i])
    ensures ProcessPing(data) == PingOutcome(true, Some(PONG_PREFIX + [NEWLINE]))
  {
    var s := CStr(data);
    assert OccursAt(s, PING, 0);
    assert s[|PING|..] == blank;
    SpaceRunIs(blank, |blank|);
  }

  /** The token is a piece of its C string after the literal, so it holds no NUL. */
  lemma TokenIsInfix(s: seq<byte>)
    requires NoNul(s)
    ensures |ScanToken(s)| == 0 || |ScanToken(s)| <= |s| - |PING|
    ensures NoNul(ScanToken(s))
  {
    var t := ScanToken(s);
    if StartsWithPing(s) {
      var rest := s[|PING|..];
      var k := SpaceRun(rest);
      assert t == rest[k..k + WordRun(rest[k..])];
      assert forall j :: 0 <= j < |t| ==> t[j] == s[|PING| + k + j];
    }
  }

  /**
   * The allocations of `processPing` suffice. The token and the NUL `%s`
   * stores after it fit in `calloc(strlen(data))`; the reply has
   * |token| + 6 bytes, so with its terminator it fills the
   * `calloc(strlen(source) + 7)` buffer exactly; and it holds no NUL, so
   * `write(sock, buffer, strlen(buffer))` sends all of it.
   */
  lemma ReplyBounds(data: seq<byte>)
    requires ProcessPing(data).found
    ensures |CStr(data)| >= |PING|
    ensures |ScanToken(CStr(data))| + 1 <= |CStr(data)|
    ensures |ScanToken(CStr(data))| <= |CStr(data)| - |PING|
    ensures ProcessPing(data).reply == Some(PongReply(ScanToken(CStr(data))))
    ensures |PongReply(ScanToken(CStr(data)))| == |ScanToken(CStr(data))| + 6
    ensures |PongReply(ScanToken(CStr(data)))| + 1 == |ScanToken(CStr(data))| + 7
    ensures NoNul(PongReply(ScanToken(CStr(data))))
  {
    var s := CStr(data);
    var i := Strstr(s, PING).value;
    assert OccursAt(s, PING, i);
    var t := ScanToken(s);
    TokenIsInfix(s);
    var r := PongReply(t);
    assert forall j :: 0 <= j < 5 ==> r[j] == PONG_PREFIX[j];
    assert forall j :: 5 <= j < |r| - 1 ==> r[j] == t[j - 5];
  }
}
