/** The scatter/gather reader: a cursor over a linked chain of buffers. */
module Chain {
  import opened Bytes

  /** A read of n bytes succeeds on a normalised cursor exactly when something is left and
      at least n bytes are: at the end of the chain even an empty read fails. */
  predicate CanRead(rest: seq<byte>, n: nat) {
    rest != [] && n <= |rest|
  }

  /** `before` with `piece` written over it from position `at`. */
  function Splice(before: seq<byte>, at: nat, piece: seq<byte>): seq<byte>
    requires at + |piece| <= |before|
  {
    before[..at] + piece + before[at + |piece|..]
  }

  /** A block copy into an array, continuing one that has stored `got` so far; nothing happens
      when there is no destination. */
  method StoreNext(dst: array?<byte>, ghost before: seq<byte>, off: nat, ghost got: seq<byte>, done: nat,
                   piece: seq<byte>)
    requires done == |got|
    requires dst != null ==> |before| == dst.Length && off + done + |piece| <= dst.Length
    requires dst != null ==> dst[..] == Splice(before, off, got)
    modifies dst
    ensures dst != null ==> dst[..] == Splice(before, off, got + piece)
  {
    if dst != null {
      forall i | 0 <= i < |piece| {
        dst[off + done + i] := piece[i];
      }
    }
  }

  /** `links` is the list of buffers still to be read (empty for the null pointer) and `src`
      the read position inside the first of them. */
  class Cursor {
    var links: seq<seq<byte>>
    var src: nat

    ghost predicate Valid()
      reads this
    {
      links != [] ==> src <= |links[0]|
    }

    /** The position a successful read leaves behind: not at the end of a buffer. */
    ghost predicate Normal()
      reads this
    {
      links != [] ==> src < |links[0]|
    }

    /** The bytes still to be read, however the chain splits them. */
    ghost function Rest(): seq<byte>
      requires Valid()
      reads this
    {
      if links == [] then [] else links[0][src..] + Concat(links[1..])
    }

    constructor (chain: seq<seq<byte>>)
      ensures Valid() && links == chain && Rest() == Concat(chain)
    {
      links := chain;
      src := 0;
    }

    lemma EndOfChain()
      requires Valid()
      ensures links == [] ==> Rest() == []
      ensures Normal() && Rest() == [] ==> links == []
    {
      if links != [] && Normal() {
        assert links[0][src..] != [];
      }
    }

    /** Skips past exhausted and empty buffers. */
    method Normalise()
      requires Valid()
      modifies this
      ensures Valid() && Normal()
      ensures Rest() == old(Rest())
    {
      while links != [] && src == |links[0]|
        invariant Valid()
        invariant Rest() == old(Rest())
        decreases |links|
      {
        links := links[1..];
        src := 0;
      }
    }

    /** Takes everything left in the first buffer and moves to the next one. */
    method TakeAll() returns (piece: seq<byte>)
      requires Valid() && links != []
      modifies this
      ensures Valid() && |links| < |old(links)|
      ensures |piece| == |old(links[0])| - old(src)
      ensures old(Rest()) == piece + Rest()
    {
      piece := links[0][src..];
      links := links[1..];
      src := 0;
    }

    /** Takes n bytes out of the first buffer. */
    method TakeSome(n: nat) returns (piece: seq<byte>)
      requires Valid() && links != [] && n <= |links[0]| - src
      modifies this
      ensures Valid()
      ensures |piece| == n
      ensures old(Rest()) == piece + Rest()
    {
      piece := links[0][src..src + n];
      src := src + n;
    }

    /** The reading loop of Copy: `got` is what it has read. */
    method Gather(dst: array?<byte>, off: nat, n: nat) returns (ok: bool, ghost got: seq<byte>)
      requires Valid()
      requires dst != null ==> off + n <= dst.Length
      modifies this, dst
      ensures Valid()
      ensures old(Rest()) == got + Rest() && |got| <= n
      ensures if ok then |got| == n else links == [] && (old(links) == [] || |got| < n)
      ensures old(links) == [] ==> !ok
      ensures dst != null ==> dst[..] == Splice(old(dst[..]), off, got)
    {
      ghost var all := Rest();
      ghost var before := if dst == null then [] else dst[..];
      got := [];
      if links == [] {
        return false, got;
      }
      var done: nat := 0;
      while |links[0]| - src < n - done
        invariant Valid() && links != []
        invariant all == got + Rest() && |got| == done <= n
        invariant dst != null ==> dst[..] == Splice(before, off, got)
        decreases |links|
      {
        var piece := TakeAll();
        Assoc(got, piece, Rest());
        StoreNext(dst, before, off, got, done, piece);
        got := got + piece;
        done := done + |piece|;
        if links == [] {
          return false, got;
        }
      }
      var piece := TakeSome(n - done);
      Assoc(got, piece, Rest());
      StoreNext(dst, before, off, got, done, piece);
      got := got + piece;
      return true, got;
    }

    /** Copies n bytes to dst[off..] (or skips them when dst is null); a failing read still
        stores the bytes there were. */
    method Copy(dst: array?<byte>, off: nat, n: nat) returns (ok: bool)
      requires Valid()
      requires dst != null ==> off + n <= dst.Length
      modifies this, dst
      ensures Valid() && Normal()
      ensures ok <==> old(links) != [] && n <= |old(Rest())|
      ensures ok ==> Rest() == old(Rest())[n..]
      ensures ok && dst != null ==> dst[..] == Splice(old(dst[..]), off, old(Rest())[..n])
      ensures !ok ==> links == []
      ensures !ok && dst != null && old(links) != [] ==> dst[..] == Splice(old(dst[..]), off, old(Rest()))
      ensures !ok && dst != null && old(links) == [] ==> dst[..] == old(dst[..])
    {
      ghost var all := Rest();
      ghost var got;
      ok, got := Gather(dst, off, n);
      DropFront(got, Rest());
      if ok {
        Normalise();
      } else {
        AppendNothing(got);
      }
    }
  }

  /** A read of n bytes into a local variable. */
  method ReadLocal(cursor: Cursor, n: nat) returns (ok: bool, local: array<byte>)
    requires cursor.Valid() && (cursor.Normal() || n > 0)
    modifies cursor
    ensures cursor.Valid() && cursor.Normal()
    ensures fresh(local) && local.Length == n
    ensures ok <==> CanRead(old(cursor.Rest()), n)
    ensures ok ==> local[..] == old(cursor.Rest())[..n]
    ensures ok ==> cursor.Rest() == old(cursor.Rest())[n..]
  {
    cursor.EndOfChain();
    local := new byte[n](_ => 0);
    ghost var before, bytes := local[..], cursor.Rest();
    ok := cursor.Copy(local, 0, n);
    if ok {
      assert Splice(before, 0, bytes[..n]) == bytes[..n];
    }
  }

  /** A read that skips n bytes. */
  method Skip(cursor: Cursor, n: nat) returns (ok: bool)
    requires cursor.Valid() && (cursor.Normal() || n > 0)
    modifies cursor
    ensures cursor.Valid() && cursor.Normal()
    ensures ok <==> CanRead(old(cursor.Rest()), n)
    ensures ok ==> cursor.Rest() == old(cursor.Rest())[n..]
  {
    cursor.EndOfChain();
    ok := cursor.Copy(null, 0, n);
  }

  /** The value of a signed byte holding the bit pattern of b. */
  function AsInt8(b: byte): int {
    if b < 128 then b else b - 256
  }

  function AsUnsigned(n: int): byte
    requires -128 <= n <= 127
  {
    if n < 0 then n + 256 else n
  }
}
