/** Connections as byte queues.  What the peer sends is fixed; how the network cuts it into
    reads is not, and every schedule of cuts is a possible run. */
module Streams {
  import opened Bytes

  /** How a stream ends once its bytes are used up. */
  datatype Ending = Eof | Fault

  /** Number of bytes the next read returns: at most `want`, at most what is left, and at most
      what the network delivers now (`cuts[0] + 1`, or everything once `cuts` is empty). */
  function Grant(rest: seq<byte>, cuts: seq<nat>, want: nat): nat {
    var cap := if cuts == [] then want else Min(want, cuts[0] + 1);
    Min(cap, |rest|)
  }

  function NextCuts(cuts: seq<nat>): seq<nat> {
    if cuts == [] then [] else cuts[1..]
  }

  /** What the peer gets of a write that fails after so many bytes. */
  function Accepted(data: seq<byte>, fails: Option<nat>): seq<byte> {
    match fails
    case None => data
    case Some(n) => data[..Min(n, |data|)]
  }

  class Conn {
    var rest: seq<byte>    // bytes from the peer not yet read
    var cuts: seq<nat>     // delivery sizes still to come
    var out: seq<byte>     // bytes written to the peer
    const ending: Ending
    const early: bool      // the ending is reported together with the last bytes

    constructor (rest: seq<byte>, cuts: seq<nat>, ending: Ending, early: bool)
      ensures this.rest == rest && this.cuts == cuts && this.out == []
      ensures this.ending == ending && this.early == early
    {
      this.rest, this.cuts, this.out := rest, cuts, [];
      this.ending, this.early := ending, early;
    }

    /** One read into buf[lo..hi]. */
    method Read(buf: array<byte>, lo: nat, hi: nat) returns (n: nat, end: Option<Ending>)
      requires lo < hi <= buf.Length
      modifies this`rest, this`cuts, buf
      ensures n == Grant(old(rest), old(cuts), hi - lo) <= |old(rest)|
      ensures rest == old(rest)[n..] && cuts == NextCuts(old(cuts))
      ensures buf[..] == old(buf[..lo]) + old(rest)[..n] + old(buf[lo + n..])
      ensures end == if old(rest) == [] || (early && rest == []) then Some(ending) else None
    {
      n := Grant(rest, cuts, hi - lo);
      var i := 0;
      while i < n
        invariant i <= n <= |rest| && n <= hi - lo
        invariant rest == old(rest) && cuts == old(cuts)
        invariant forall k | 0 <= k < buf.Length :: buf[k] == if lo <= k < lo + i then old(rest)[k - lo] else old(buf[k])
      {
        buf[lo + i] := rest[i];
        i := i + 1;
      }
      assert buf[..] == old(buf[..lo]) + old(rest)[..n] + old(buf[lo + n..]);
      end := if rest == [] || (early && n == |rest|) then Some(ending) else None;
      rest, cuts := rest[n..], NextCuts(cuts);
    }

    method Write(data: seq<byte>)
      modifies this`out
      ensures out == old(out) + data
    {
      out := out + data;
    }

    /** A write that fails, if at all, after some of the bytes. */
    method TryWrite(data: seq<byte>, fails: Option<nat>) returns (ok: bool)
      modifies this`out
      ensures ok <==> fails == None
      ensures out == old(out) + Accepted(data, fails)
    {
      out := out + Accepted(data, fails);
      ok := fails == None;
    }

    /** io.ReadFull: reads until `buf` is full or the stream ends. */
    method ReadFull(buf: array<byte>) returns (ok: bool)
      modifies this`rest, this`cuts, buf
      ensures ok <==> buf.Length <= |old(rest)|
      ensures ok ==> buf[..] == old(rest)[..buf.Length] && rest == old(rest)[buf.Length..]
      ensures !ok ==> rest == []
    {
      var n := 0;
      while n < buf.Length
        invariant n <= buf.Length && n <= |old(rest)|
        invariant buf[..n] == old(rest)[..n] && rest == old(rest)[n..]
        decreases buf.Length - n
      {
        var got, end := Read(buf, n, buf.Length);
        n := n + got;
        if end.Some? && n < buf.Length {
          return false;
        }
      }
      assert buf[..n] == buf[..];
      return true;
    }
  }
}
