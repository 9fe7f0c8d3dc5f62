/** The connections of internal/dataplane/fixuri_conn.go and fixuri_hertz_conn.go: one edits the
    first chunk of the byte stream, the other buffers what it reads and writes. The network decides
    how the stream is cut into chunks and when it fails. */
module FixUri {
  import opened Common
  import opened Bytes

  datatype Error = Error(code: int)

  const SPACE: byte := 0x20
  const SLASH: byte := 0x2f
  const STAR: byte := 0x2a
  const TLS_RECORD: byte := 0x16

  /** The position of the first space, or the length. */
  function FirstSpace(data: Text): (i: nat)
    ensures i <= |data| && SPACE !in data[..i] && (i < |data| ==> data[i] == SPACE)
  {
    if data == [] || data[0] == SPACE then 0
    else
      var i := FirstSpace(data[1..]);
      assert data[..i + 1] == [data[0]] + data[1..][..i];
      i + 1
  }

  /** A request line whose target starts with neither a slash nor a star. */
  predicate NeedsSlash(data: Text)
  {
    && data != [] && data[0] != TLS_RECORD
    && FirstSpace(data) + 1 < |data|
    && data[FirstSpace(data) + 1] != SLASH && data[FirstSpace(data) + 1] != STAR
  }

  /** A slash is put in front of such a target. */
  function Rewrite(data: Text): Text
  {
    if NeedsSlash(data)
    then data[..FirstSpace(data) + 1] + [SLASH] + data[FirstSpace(data) + 1..]
    else data
  }

  lemma {:induction false} FirstSpaceIs(data: Text, i: nat)
    requires i < |data| && data[i] == SPACE && SPACE !in data[..i]
    ensures FirstSpace(data) == i
  {
    var j := FirstSpace(data);
    assert j <= i by {
      assert forall k :: 0 <= k < j ==> data[k] in data[..j];
    }
    assert forall k :: 0 <= k < i ==> data[k] in data[..i];
  }

  /** A slash goes in after the first space when a byte other than a slash or a star follows it. The
      method before it must not begin like a TLS record. */
  lemma EditOfRequestLine(m: Text, c: byte, t: Text)
    requires 0x20 !in m && (m != [] ==> m[0] != 0x16)
    ensures Rewrite(m + [0x20, c] + t) ==
            if c == 0x2f || c == 0x2a then m + [0x20, c] + t else m + [0x20, 0x2f, c] + t
  {
    var a, h := m + [0x20], [c] + t;
    assert m + [0x20, c] + t == a + h;
    SlashNeeded(m, c, t);
    hide Rewrite, NeedsSlash, FirstSpace;
    RewriteSplit(a + h, a, h);
    assert a + [SLASH] + h == m + [0x20, 0x2f, c] + t;
  }

  lemma SlashNeeded(m: Text, c: byte, t: Text)
    requires 0x20 !in m && (m != [] ==> m[0] != 0x16)
    ensures var data := m + [0x20] + ([c] + t);
      FirstSpace(data) == |m| && (NeedsSlash(data) <==> c != 0x2f && c != 0x2a)
  {
    var data := m + [0x20] + ([c] + t);
    assert data[..|m|] == m && data[|m|] == 0x20 && data[|m| + 1] == c;
    FirstSpaceIs(data, |m|);
    hide FirstSpace;
  }

  /** Everything else is left as it is. */
  lemma NoEditOtherwise(m: Text, t: Text)
    ensures 0x20 !in m ==> Rewrite(m) == m && Rewrite(m + [0x20]) == m + [0x20]
    ensures Rewrite([0x16] + t) == [0x16] + t
  {
    if 0x20 !in m {
      assert forall i :: 0 <= i < |m| ==> m[i] in m;
      var data := m + [0x20];
      assert data[..|m|] == m && data[|m|] == 0x20;
      FirstSpaceIs(data, |m|);
    }
  }

  /** Editing twice is editing once. */
  lemma RewriteIdempotent(data: Text)
    ensures Rewrite(Rewrite(data)) == Rewrite(data)
  {
    if NeedsSlash(data) {
      var sp, r := FirstSpace(data), Rewrite(data);
      assert r[..sp] == data[..sp] && r[sp] == SPACE && r[sp + 1] == SLASH;
      FirstSpaceIs(r, sp);
    }
  }

  /** The stream a reader sees when its first k bytes came as one chunk. */
  function Edited(stream: Text, k: nat): Text
    requires k <= |stream|
  {
    Rewrite(stream[..k]) + stream[k..]
  }

  lemma FirstSpaceOfHead(stream: Text, k: nat)
    requires k <= |stream|
    ensures FirstSpace(stream[..k]) == if FirstSpace(stream) < k then FirstSpace(stream) else k
  {
    var sp, head := FirstSpace(stream), stream[..k];
    if sp < k {
      assert head[sp] == SPACE && head[..sp] == stream[..sp];
      FirstSpaceIs(head, sp);
    } else {
      assert forall i :: 0 <= i < k ==> head[i] == stream[..sp][i];
    }
  }

  lemma RewriteSplit(data: Text, a: Text, h: Text)
    requires data == a + h && |a| == FirstSpace(data) + 1
    ensures Rewrite(data) == if NeedsSlash(data) then a + [SLASH] + h else data
  {
    assert data[..|a|] == a && data[|a|..] == h;
  }

  lemma SameNeed(data: Text, more: Text)
    requires FirstSpace(data) + 1 < |data| && FirstSpace(data + more) == FirstSpace(data)
    ensures NeedsSlash(data + more) <==> NeedsSlash(data)
  {
  }

  lemma Regroup(a: Text, s: Text, h: Text, t: Text)
    ensures a + s + h + t == a + s + (h + t)
    ensures a + h + t == a + (h + t)
  {
  }

  lemma FarChunk(stream: Text, k: nat)
    requires FirstSpace(stream) + 2 <= k <= |stream|
    ensures Edited(stream, k) == Rewrite(stream)
  {
    hide NeedsSlash, Rewrite, FirstSpace;
    FirstSpaceOfHead(stream, k);
    var head, tail := stream[..k], stream[k..];
    assert stream == head + tail;
    RewriteAppended(head, tail);
  }

  /** What follows the byte after the first space plays no part. */
  lemma RewriteAppended(head: Text, tail: Text)
    requires FirstSpace(head) + 2 <= |head| && FirstSpace(head + tail) == FirstSpace(head)
    ensures Rewrite(head + tail) == Rewrite(head) + tail
  {
    hide NeedsSlash, Rewrite, FirstSpace;
    var a, h := head[..FirstSpace(head) + 1], head[FirstSpace(head) + 1..];
    assert head == a + h;
    Regroup(a, [SLASH], h, tail);
    SameNeed(head, tail);
    RewriteSplit(head, a, h);
    RewriteSplit(head + tail, a, h + tail);
  }

  lemma NearChunk(stream: Text, k: nat)
    requires k <= |stream| && k < FirstSpace(stream) + 2
    ensures Edited(stream, k) == stream
    ensures NeedsSlash(stream) ==> Rewrite(stream) != stream
  {
    hide FirstSpace;
    FirstSpaceOfHead(stream, k);
    assert !NeedsSlash(stream[..k]);
    assert stream == stream[..k] + stream[k..];
    if NeedsSlash(stream) {
      assert |Rewrite(stream)| == |stream| + 1;
    }
  }

  /** The edit does not depend on the chunking exactly when nothing needs editing, or the first
      chunk reaches the byte after the first space. */
  lemma EditSeesEnoughIff(stream: Text, k: nat)
    requires k <= |stream|
    ensures Edited(stream, k) == Rewrite(stream) <==> !NeedsSlash(stream) || k >= FirstSpace(stream) + 2
  {
    if k >= FirstSpace(stream) + 2 {
      FarChunk(stream, k);
    } else {
      NearChunk(stream, k);
    }
  }

  // ---------------------------------------------------------------------------------------
  // The network
  // ---------------------------------------------------------------------------------------

  /** What one read of the network yields at most, and the error that comes with it. */
  datatype ReadStep = ReadStep(most: nat, err: Option<Error>)

  /** How many bytes a read with this much room yields. */
  function ChunkSize(rest: Text, plan: seq<ReadStep>, room: nat): (n: nat)
    ensures n <= |rest| && n <= room
  {
    if plan == [] then 0
    else
      var most := if plan[0].most < room then plan[0].most else room;
      if most < |rest| then most else |rest|
  }

  /** How it ends, and what is planned after it. */
  function NextError(plan: seq<ReadStep>): Option<Error>
  {
    if plan == [] then Some(Error(0)) else plan[0].err
  }

  function Later(plan: seq<ReadStep>): seq<ReadStep>
  {
    if plan == [] then [] else plan[1..]
  }

  class Network {
    var rest: Text          // what the peer will still send
    var plan: seq<ReadStep> // how the coming reads go; after them reads fail
    var sent: Text          // what has been written to the peer

    method Read(b: array<byte>) returns (n: nat, err: Option<Error>)
      modifies this`rest, this`plan, b
      ensures n == ChunkSize(old(rest), old(plan), b.Length) && err == NextError(old(plan)) && plan == Later(old(plan))
      ensures b[..n] == old(rest)[..n] && rest == old(rest)[n..]
      ensures b[n..] == old(b[n..])
    {
      if plan == [] {
        assert b[..0] == rest[..0] && rest[0..] == rest;
        return 0, Some(Error(0));
      }
      n := plan[0].most;
      err := plan[0].err;
      plan := plan[1..];
      if n > b.Length {
        n := b.Length;
      }
      if n > |rest| {
        n := |rest|;
      }
      forall i | 0 <= i < n {
        b[i] := rest[i];
      }
      assert b[..n] == rest[..n];
      rest := rest[n..];
    }

    /** A short write comes with an error. */
    method Write(data: Text) returns (n: nat, err: Option<Error>)
      modifies this`sent
      ensures n <= |data| && (n < |data| ==> err.Some?)
      ensures sent == old(sent) + data[..n]
    {
      n :| 0 <= n <= |data|;
      var fails: bool, code: int := *, *;
      err := if fails || n < |data| then Some(Error(code)) else None;
      sent := sent + data[..n];
    }
  }

  // ---------------------------------------------------------------------------------------
  // The editing connection
  // ---------------------------------------------------------------------------------------

  class FixURIConn {
    const conn: Network
    const negotiatedH2: bool
    var checked: bool
    var prefix: Text
    ghost const stream: Text // everything the peer sends
    ghost var pulled: Text   // what has been read from the network
    ghost var first: nat     // the length of the first chunk that was looked at
    ghost var delivered: Text

    /** The stream that callers of Read see. */
    ghost function Seen(): Text
      requires first <= |stream|
      reads this
    {
      if negotiatedH2 then stream else Edited(stream, first)
    }

    ghost predicate Valid()
      reads this, conn
    {
      && stream == pulled + conn.rest
      && first <= |pulled|
      && |prefix| <= 1
      && (!checked ==> prefix == [] && pulled == [] && delivered == [])
      && delivered + prefix + conn.rest == Seen()
    }

    constructor (conn: Network, negotiatedH2: bool)
      ensures Valid() && !checked && this.conn == conn && this.negotiatedH2 == negotiatedH2
      ensures stream == conn.rest && delivered == []
    {
      this.conn, this.negotiatedH2 := conn, negotiatedH2;
      checked, prefix := false, [];
      stream, pulled, first, delivered := conn.rest, [], 0, [];
      new;
      assert stream[..0] == [] && Edited(stream, 0) == stream;
    }

    /** The length of the first chunk after a read with this much room: the first network read
        decides it, once and for all. */
    ghost function FirstAfter(room: nat): nat
      reads this, conn
    {
      if checked || negotiatedH2 then first else ChunkSize(conn.rest, conn.plan, room)
    }

    /** How many bytes a call with this much room takes from the network, and how it ends. A byte left
        over is delivered without a network read. */
    ghost function Pulls(room: nat): (n: nat)
      reads this, conn
      ensures n <= |conn.rest|
    {
      if prefix != [] then 0 else ChunkSize(conn.rest, conn.plan, room)
    }

    ghost function Ending(): Option<Error>
      reads this, conn
    {
      if prefix != [] then None else NextError(conn.plan)
    }

    /** Bounds the reads that are still possible before an error. */
    ghost function Fuel(): nat
      reads this, conn
    {
      2 * |conn.plan| + |prefix|
    }

    /** Delivers the next bytes of the edited stream. At most one byte is left over, when the
        caller's buffer is full. */
    method Read(b: array<byte>) returns (n: nat, err: Option<Error>)
      requires Valid()
      modifies this, conn`rest, conn`plan, b
      ensures Valid() && checked
      ensures n <= b.Length && delivered == old(delivered) + b[..n]
      ensures first == old(FirstAfter(b.Length)) && (!old(checked) && !negotiatedH2 ==> first == |pulled|)
      ensures conn.rest == old(conn.rest)[old(Pulls(b.Length))..] && err == old(Ending())
      ensures conn.plan == if old(prefix) != [] then old(conn.plan) else Later(old(conn.plan))
      ensures n < b.Length ==> prefix == []
      ensures err.None? && b.Length > 0 ==> Fuel() < old(Fuel())
    {
      hide Edited, NeedsSlash;
      if checked {
        if |prefix| > 0 {
          n := DeliverPrefix(b);
          return n, None;
        }
        n, err := Pass(b);
        return;
      }
      checked := true;
      if negotiatedH2 {
        n, err := Pass(b);
        return;
      }
      n, err := FirstRead(b);
    }

    /** The byte that did not fit comes first. */
    method DeliverPrefix(b: array<byte>) returns (n: nat)
      requires Valid() && checked && |prefix| > 0
      modifies this`prefix, this`delivered, b
      ensures Valid() && n <= b.Length && delivered == old(delivered) + b[..n]
      ensures b.Length > 0 ==> |prefix| < |old(prefix)|
      ensures n < b.Length ==> prefix == []
    {
      hide Edited;
      n := if b.Length < |prefix| then b.Length else |prefix|;
      forall i | 0 <= i < n {
        b[i] := prefix[i];
      }
      assert b[..n] == prefix[..n];
      assert delivered + prefix[..n] + prefix[n..] == delivered + prefix;
      delivered := delivered + b[..n];
      prefix := prefix[n..];
    }

    /** The read that looks at the first chunk. */
    method FirstRead(b: array<byte>) returns (n: nat, err: Option<Error>)
      requires stream == conn.rest && first == 0 && !negotiatedH2
      requires checked && prefix == [] && pulled == [] && delivered == []
      modifies this, conn`rest, conn`plan, b
      ensures Valid() && checked && n <= b.Length && delivered == b[..n]
      ensures first == |pulled| == ChunkSize(old(conn.rest), old(conn.plan), b.Length)
      ensures conn.rest == old(conn.rest)[first..]
      ensures err == NextError(old(conn.plan)) && conn.plan == Later(old(conn.plan))
      ensures n < b.Length ==> prefix == []
    {
      hide NeedsSlash;
      n, err := conn.Read(b);
      ghost var data := b[..n];
      assert stream[..n] == data && stream[n..] == conn.rest;
      pulled, first := data, n;
      n := EditInPlace(b, n);
      assert delivered + prefix == Rewrite(data);
    }

    /** The edit of the n bytes in the caller's buffer. */
    method EditInPlace(b: array<byte>, n: nat) returns (written: nat)
      requires n <= b.Length && checked && prefix == [] && delivered == []
      modifies this`prefix, this`delivered, b
      ensures written <= b.Length && delivered == b[..written] && |prefix| <= 1
      ensures delivered + prefix == Rewrite(old(b[..n]))
      ensures written < b.Length ==> prefix == []
    {
      ghost var data := b[..n];
      written := n;
      delivered := data;
      if n == 0 || b[0] == TLS_RECORD {
        return;
      }
      var sp := FirstSpace(b[..n]);
      if sp + 1 >= n || b[sp + 1] == SLASH || b[sp + 1] == STAR {
        return;
      }
      var fixed := b[..sp + 1] + [SLASH] + b[sp + 1..n];
      assert b[sp + 1..n] == data[sp + 1..] && b[..sp + 1] == data[..sp + 1];
      assert fixed == Rewrite(data);
      written := if b.Length < |fixed| then b.Length else |fixed|;
      forall i | 0 <= i < written {
        b[i] := fixed[i];
      }
      assert b[..written] == fixed[..written];
      prefix := fixed[written..];
      delivered := b[..written];
      assert fixed[..written] + fixed[written..] == fixed;
    }

    /** A read that hands the network's bytes through. */
    method Pass(b: array<byte>) returns (n: nat, err: Option<Error>)
      requires stream == pulled + conn.rest && first <= |pulled| && checked && prefix == []
      requires delivered + conn.rest == Seen()
      modifies this`pulled, this`delivered, conn`rest, conn`plan, b
      ensures Valid() && n <= b.Length && delivered == old(delivered) + b[..n]
      ensures conn.rest == old(conn.rest)[ChunkSize(old(conn.rest), old(conn.plan), b.Length)..]
      ensures err == NextError(old(conn.plan)) && conn.plan == Later(old(conn.plan))
    {
      hide Edited, Rewrite;
      ghost var was, before, had, seen := conn.rest, delivered, pulled, Seen();
      n, err := conn.Read(b);
      ghost var got := b[..n];
      assert was == got + conn.rest;
      pulled := had + got;
      delivered := before + got;
      Regroup(before, [], got, conn.rest);
      Regroup(had, [], got, conn.rest);
      assert delivered + prefix == delivered;
    }
  }

  // ---------------------------------------------------------------------------------------
  // The buffering connection
  // ---------------------------------------------------------------------------------------

  const PEEK_CHUNK: int := 4096

  /** The room of the next network read when n bytes are wanted and `have` are buffered. */
  function Room(n: nat, have: nat): nat
  {
    if n - have < PEEK_CHUNK then PEEK_CHUNK else n - have
  }

  /** The last of the network reads between these two plans ended in this error. */
  ghost predicate Failed(before: seq<ReadStep>, after: seq<ReadStep>, err: Option<Error>)
  {
    exists k :: FailedAt(before, after, err, k)
  }

  predicate FailedAt(before: seq<ReadStep>, after: seq<ReadStep>, err: Option<Error>, k: int)
  {
    0 <= k <= |before| && err == NextError(before[k..]) && after == Later(before[k..])
  }

  class FixURIHertzConn {
    const conn: FixURIConn
    var readBuf: Text
    var write: Text
    ghost var consumed: Text // what callers have read or skipped
    ghost var accepted: Text // what callers have written, in call order
    ghost const base: Text   // what was on the wire before
    ghost var torn: bool     // some flush failed after writing part of the buffer

    /** Every byte of the edited stream is consumed, buffered, left over below, or unread. */
    ghost predicate ReadValid()
      reads this, conn, conn.conn
    {
      conn.Valid() && consumed + readBuf == conn.delivered
    }

    /** Every byte written is on the wire or in the buffer, in order. */
    ghost predicate WriteValid()
      reads this, conn, conn.conn
    {
      !torn ==> base + accepted == conn.conn.sent + write
    }

    ghost predicate Valid()
      reads this, conn, conn.conn
    {
      ReadValid() && WriteValid()
    }

    constructor (conn: FixURIConn)
      requires conn.Valid() && conn.delivered == []
      ensures Valid() && this.conn == conn && base == conn.conn.sent && !torn
      ensures consumed == [] && readBuf == [] && accepted == [] && write == []
    {
      this.conn := conn;
      readBuf, write, consumed, accepted, torn := [], [], [], [], false;
      base := conn.conn.sent;
    }

    /** What callers have consumed, what is buffered here, what is left over below and what the peer
        has yet to send make up the edited stream. */
    ghost predicate Stacked()
      requires conn.Valid()
      reads this, conn, conn.conn
    {
      consumed + readBuf + conn.prefix + conn.conn.rest == conn.Seen()
    }

    /** The length of the first chunk after a call that needs n buffered bytes. */
    ghost function FirstAfter(n: nat): nat
      reads this, conn, conn.conn
    {
      if |readBuf| >= n then conn.first else conn.FirstAfter(Room(n, |readBuf|))
    }

    method Read(b: array<byte>) returns (n: nat, err: Option<Error>)
      requires Valid()
      modifies this`readBuf, this`consumed, conn, conn.conn`rest, conn.conn`plan, b
      ensures Valid() && Stacked() && n <= b.Length && consumed == old(consumed) + b[..n]
      ensures conn.first == if old(readBuf) != [] then old(conn.first) else old(conn.FirstAfter(b.Length))
      ensures old(readBuf) != [] ==>
        err.None? && n == (if b.Length < |old(readBuf)| then b.Length else |old(readBuf)|)
            && readBuf == old(readBuf)[n..]
      ensures old(readBuf) == [] ==> readBuf == [] && err == old(conn.Ending()) && (n < b.Length ==> conn.prefix == [])
      ensures conn.conn.rest == old(conn.conn.rest)[if old(readBuf) != [] then 0 else old(conn.Pulls(b.Length))..]
    {
      if |readBuf| > 0 {
        n := if b.Length < |readBuf| then b.Length else |readBuf|;
        forall i | 0 <= i < n {
          b[i] := readBuf[i];
        }
        assert b[..n] == readBuf[..n];
        Drain(n);
        return n, None;
      }
      n, err := conn.Read(b);
      consumed := consumed + b[..n];
      assert consumed + readBuf == consumed;
    }

    /** Taking the first n buffered bytes. */
    method Drain(n: nat)
      requires Valid() && n <= |readBuf|
      modifies this`readBuf, this`consumed
      ensures Valid() && readBuf == old(readBuf)[n..] && consumed == old(consumed) + old(readBuf)[..n]
    {
      Regroup(consumed, [], readBuf[..n], readBuf[n..]);
      assert readBuf[..n] + readBuf[n..] == readBuf;
      consumed := consumed + readBuf[..n];
      readBuf := readBuf[n..];
    }

    /** One network read (or the byte left over below) into the buffer. */
    method Grow(n: nat) returns (err: Option<Error>)
      requires Valid() && |readBuf| < n
      modifies this`readBuf, conn, conn.conn`rest, conn.conn`plan
      ensures Valid() && consumed == old(consumed)
      ensures old(readBuf) <= readBuf && conn.checked && conn.first == old(FirstAfter(n))
      ensures if old(conn.prefix) != [] then err.None? && conn.conn.plan == old(conn.conn.plan)
              else err == NextError(old(conn.conn.plan)) && conn.conn.plan == Later(old(conn.conn.plan))
      ensures err.None? ==> conn.Fuel() < old(conn.Fuel())
    {
      hide FixURIConn.Valid;
      var buf := new byte[Room(n, |readBuf|)];
      var got;
      got, err := conn.Read(buf);
      Regroup(consumed, [], readBuf, buf[..got]);
      readBuf := readBuf + buf[..got];
    }

    /** Fills the buffer to n bytes without consuming any. It fails only when the stream does. */
    method Peek(n: nat) returns (p: Text, err: Option<Error>)
      requires Valid()
      modifies this`readBuf, conn, conn.conn`rest, conn.conn`plan
      ensures Valid() && Stacked() && consumed == old(consumed)
      ensures old(readBuf) <= readBuf && conn.first == old(FirstAfter(n))
      ensures err.None? ==> |readBuf| >= n && p == readBuf[..n]
      ensures err.Some? ==> |readBuf| < n && p == readBuf && Failed(old(conn.conn.plan), conn.conn.plan, err)
    {
      ghost var before, k := conn.conn.plan, 0;
      assert before[0..] == before;
      while |readBuf| < n
        invariant Valid() && old(readBuf) <= readBuf && FirstAfter(n) == old(FirstAfter(n))
        invariant k <= |before| && conn.conn.plan == before[k..]
        decreases conn.Fuel(), n - |readBuf|
      {
        var e := Grow(n);
        if e.Some? {
          if |readBuf| >= n {
            break;
          }
          assert FailedAt(before, conn.conn.plan, e, k);
          return readBuf, e;
        }
        if conn.conn.plan != before[k..] {
          k := k + 1;
        }
      }
      p, err := readBuf[..n], None;
    }

    /** A failed Skip consumes nothing. */
    method Skip(n: nat) returns (err: Option<Error>)
      requires Valid()
      modifies this`readBuf, this`consumed, conn, conn.conn`rest, conn.conn`plan
      ensures Valid() && Stacked() && conn.first == old(FirstAfter(n))
      ensures err.Some? ==>
          consumed == old(consumed) && old(readBuf) <= readBuf
          && Failed(old(conn.conn.plan), conn.conn.plan, err)
      ensures err.None? ==> |consumed| == |old(consumed)| + n && old(consumed) <= consumed
    {
      err := None;
      if |readBuf| < n {
        var _, e := Peek(n);
        if e.Some? {
          return e;
        }
      }
      Drain(n);
    }

    method ReadByte() returns (c: byte, err: Option<Error>)
      requires Valid()
      modifies this`readBuf, this`consumed, conn, conn.conn`rest, conn.conn`plan
      ensures Valid() && Stacked() && conn.first == old(FirstAfter(1))
      ensures err.Some? ==>
          consumed == old(consumed) && old(readBuf) <= readBuf
          && Failed(old(conn.conn.plan), conn.conn.plan, err)
      ensures err.None? ==> consumed == old(consumed) + [c]
    {
      c, err := 0, None;
      if |readBuf| == 0 {
        var _, e := Peek(1);
        if e.Some? {
          return 0, e;
        }
      }
      c := readBuf[0];
      assert readBuf[..1] == [c];
      Drain(1);
    }

    method ReadBinary(n: nat) returns (p: Text, err: Option<Error>)
      requires Valid()
      modifies this`readBuf, this`consumed, conn, conn.conn`rest, conn.conn`plan
      ensures Valid() && Stacked() && conn.first == old(FirstAfter(n))
      ensures err.Some? ==> p == [] && consumed == old(consumed) && old(readBuf) <= readBuf
      ensures err.Some? ==> Failed(old(conn.conn.plan), conn.conn.plan, err)
      ensures err.None? ==> |p| == n && consumed == old(consumed) + p
    {
      p, err := [], None;
      if |readBuf| < n {
        var _, e := Peek(n);
        if e.Some? {
          return [], e;
        }
      }
      p := readBuf[..n];
      Drain(n);
    }

    method WriteBinary(b: Text) returns (n: nat)
      requires Valid()
      modifies this`write, this`accepted
      ensures Valid() && n == |b| && write == old(write) + b && accepted == old(accepted) + b
    {
      Regroup(conn.conn.sent, [], write, b);
      Regroup(base, [], accepted, b);
      write := write + b;
      accepted := accepted + b;
      n := |b|;
    }

    /** Empties the buffer onto the wire. When the connection fails, the buffer is kept whole: the
        part of it that did reach the wire stands there twice, on the wire and in the buffer. So the
        account is off exactly when that part is not empty, which is what `torn` records. */
    method Flush() returns (err: Option<Error>, ghost partial: nat)
      requires Valid()
      modifies this`write, this`torn, conn.conn`sent
      ensures Valid() && partial <= |old(write)|
      ensures err.None? ==> write == [] && conn.conn.sent == old(conn.conn.sent) + old(write) && torn == old(torn)
      ensures err.Some? ==> old(write) != [] && write == old(write)
      ensures err.Some? ==>
          conn.conn.sent == old(conn.conn.sent) + old(write)[..partial]
          && torn == (old(torn) || partial > 0)
      ensures !old(torn) ==> (base + accepted == conn.conn.sent + write <==> err.None? || partial == 0)
    {
      partial := 0;
      err := None;
      ghost var was := conn.conn.sent;
      assert was + [] == was;
      while |write| > 0
        invariant err.None? && partial == 0 && torn == old(torn)
        invariant if write == [] then conn.conn.sent == was + old(write)
                  else write == old(write) && conn.conn.sent == was
        decreases |write|
      {
        var n, e := conn.conn.Write(write);
        if e.Some? {
          partial := n;
          torn := torn || n > 0;
          RepeatedPart(was, write, partial);
          return e, partial;
        }
        write := write[n..];
        assert conn.conn.sent + write == was + old(write);
      }
      assert conn.conn.sent + write == was + old(write);
    }

    /** Flushes, then writes past the buffer. A failed flush (`stuck`) accepts nothing; otherwise the
        buffer and the first n bytes of b are on the wire. */
    method Write(b: Text) returns (n: nat, err: Option<Error>, ghost stuck: bool, ghost partial: nat)
      requires Valid()
      modifies this`write, this`accepted, this`torn, conn.conn`sent
      ensures Valid() && n <= |b| && partial <= |old(write)|
      ensures accepted == old(accepted) + b[..n]
      ensures err.None? ==> n == |b| && !stuck
      ensures stuck ==> n == 0 && write == old(write) != []
      ensures stuck ==>
          conn.conn.sent == old(conn.conn.sent) + old(write)[..partial]
          && torn == (old(torn) || partial > 0)
      ensures !stuck ==> write == [] && conn.conn.sent == old(conn.conn.sent) + old(write) + b[..n] && torn == old(torn)
      ensures !old(torn) ==> (base + accepted == conn.conn.sent + write <==> !stuck || partial == 0)
    {
      var e;
      e, partial := Flush();
      stuck := e.Some?;
      if e.Some? {
        assert accepted + b[..0] == accepted;
        return 0, e, stuck, partial;
      }
      Regroup(base, [], accepted, b);
      ghost var was := conn.conn.sent;
      n, err := conn.conn.Write(b);
      accepted := accepted + b[..n];
      Regroup(base, [], old(accepted), b[..n]);
      assert was + write == was;
      assert conn.conn.sent + write == was + b[..n];
    }
  }

  lemma RepeatedPart(sent: Text, write: Text, partial: nat)
    requires partial <= |write|
    ensures sent + write[..partial] + write == sent + write <==> partial == 0
  {
    assert |sent + write[..partial] + write| == |sent| + partial + |write|;
  }
}
