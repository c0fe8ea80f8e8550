/** Tuning trouble (06/DataStream.cpp): the start-of-packet and
    start-of-message markers are the first windows of 4 and 14 characters
    in which no character repeats; the answer is the position just after
    the window. */
module DataStream {

  const PACKET_MARKER_SIZE: nat := 4
  const MESSAGE_MARKER_SIZE: nat := 14

  /** No two positions of `s` hold the same character. */
  predicate PairwiseDistinct(s: string) {
    forall p, q :: 0 <= p < q < |s| ==> s[p] != s[q]
  }

  /** The `width` characters just before position `p` are pairwise distinct. */
  predicate UniqueWindowEndingAt(data: string, width: nat, p: int) {
    width <= p <= |data| && PairwiseDistinct(data[p - width..p])
  }

  class Stream {
    const data: string

    constructor (src: string)
      ensures data == src
    {
      data := src;
    }

    method FindStartOfPacket() returns (r: nat)
      requires |data| >= PACKET_MARKER_SIZE
      ensures PACKET_MARKER_SIZE <= r <= |data|
      ensures UniqueWindowEndingAt(data, PACKET_MARKER_SIZE, r) || r == |data|
      ensures forall p :: PACKET_MARKER_SIZE <= p < r ==> !UniqueWindowEndingAt(data, PACKET_MARKER_SIZE, p)
    {
      r := FindFirstUniqueWindow(PACKET_MARKER_SIZE);
    }

    method FindStartOfMessage() returns (r: nat)
      requires |data| >= MESSAGE_MARKER_SIZE
      ensures MESSAGE_MARKER_SIZE <= r <= |data|
      ensures UniqueWindowEndingAt(data, MESSAGE_MARKER_SIZE, r) || r == |data|
      ensures forall p :: MESSAGE_MARKER_SIZE <= p < r ==> !UniqueWindowEndingAt(data, MESSAGE_MARKER_SIZE, p)
    {
      r := FindFirstUniqueWindow(MESSAGE_MARKER_SIZE);
    }

    /** Slides a window of `width` characters from the front and returns the
        end of the first window whose characters are distinct; when there is
        none, the length of the data. */
    method FindFirstUniqueWindow(width: nat) returns (r: nat)
      requires 1 <= width <= |data|
      ensures width <= r <= |data|
      ensures UniqueWindowEndingAt(data, width, r)
           || (r == |data| && forall p :: width <= p <= |data| ==> !UniqueWindowEndingAt(data, width, p))
      ensures forall p :: width <= p < r ==> !UniqueWindowEndingAt(data, width, p)
    {
      var start, end := 0, width;
      while end <= |data|
        invariant end == start + width && width <= end <= |data| + 1
        invariant forall p :: width <= p < end ==> !UniqueWindowEndingAt(data, width, p)
      {
        var unique := AreCharactersUnique(start, end);
        if unique {
          return end;
        }
        start, end := start + 1, end + 1;
      }
      return |data|;
    }

    /** Compares every pair of positions in [start, end). */
    method AreCharactersUnique(start: nat, end: nat) returns (r: bool)
      requires start < end <= |data|
      ensures r == PairwiseDistinct(data[start..end])
    {
      var i := start;
      while i != end - 1
        invariant start <= i <= end - 1
        invariant forall p, q :: start <= p < i && p < q < end ==> data[p] != data[q]
      {
        var j := i + 1;
        while j != end
          invariant i < j <= end
          invariant forall q :: i < q < j ==> data[i] != data[q]
        {
          if data[i] == data[j] {
            assert !PairwiseDistinct(data[start..end]) by {
              assert data[start..end][i - start] == data[start..end][j - start];
            }
            return false;
          }
          j := j + 1;
        }
        i := i + 1;
      }
      assert forall p, q :: 0 <= p < q < end - start ==> data[start..end][p] == data[start + p] && data[start..end][q] == data[start + q];
      return true;
    }
  }

  /** The tail of a window with distinct characters has distinct
      characters too. */
  lemma NarrowerWindow(data: string, narrow: nat, wide: nat, p: int)
    requires narrow <= wide
    requires UniqueWindowEndingAt(data, wide, p)
    ensures UniqueWindowEndingAt(data, narrow, p)
  {
    var w := data[p - wide..p];
    var n := data[p - narrow..p];
    forall i, j | 0 <= i < j < |n| ensures n[i] != n[j] {
      assert n[i] == w[i + wide - narrow] && n[j] == w[j + wide - narrow];
    }
  }

  /** Whatever the stream, the start-of-packet position (as characterised
      by `FindStartOfPacket`) is never after the start-of-message position
      when a message marker exists. */
  lemma PacketNoLaterThanMessage(data: string, packet: nat, message: nat)
    requires PACKET_MARKER_SIZE <= packet <= |data|
    requires forall p :: PACKET_MARKER_SIZE <= p < packet ==> !UniqueWindowEndingAt(data, PACKET_MARKER_SIZE, p)
    requires UniqueWindowEndingAt(data, MESSAGE_MARKER_SIZE, message)
    ensures packet <= message
  {
    NarrowerWindow(data, PACKET_MARKER_SIZE, MESSAGE_MARKER_SIZE, message);
  }
}
