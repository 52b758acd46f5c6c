/** Transmit requests of the AccNet driver (post_send and post_send_frag in accnet.c).

    Each segment of a packet is one 64-bit word: bit 63 says that more segments of the packet
    follow, the next 15 bits are the length, the low 48 bits the address. */
module TxFrame {

  datatype Segment = Segment(addr: bv64, len: bv64)

  // A packet has a linear part and any number of fragments.
  datatype Packet = Packet(head: Segment, frags: seq<Segment>)

  const ADDR_MASK: bv64 := 0xffff_ffff_ffff

  function Word(s: Segment, partial: bool): bv64 {
    ((if partial then 1 else 0) << 63) | (s.len << 48) | (s.addr & ADDR_MASK)
  }

  function FragWords(frags: seq<Segment>): seq<bv64> {
    if frags == [] then [] else [Word(frags[0], |frags| > 1)] + FragWords(frags[1..])
  }

  /** The words written for one packet. */
  function PacketWords(p: Packet): seq<bv64> {
    [Word(p.head, p.frags != [])] + FragWords(p.frags)
  }

  function StreamWords(ps: seq<Packet>): seq<bv64> {
    if ps == [] then [] else PacketWords(ps[0]) + StreamWords(ps[1..])
  }

  /** The driver's loop over the fragments. */
  method PostSend(p: Packet) returns (words: seq<bv64>)
    ensures words == PacketWords(p)
  {
    words := [Word(p.head, |p.frags| > 0)];
    for i := 0 to |p.frags|
      invariant words + FragWords(p.frags[i..]) == PacketWords(p)
    {
      var last := i == |p.frags| - 1;
      assert p.frags[i..][1..] == p.frags[i + 1..];
      assert FragWords(p.frags[i..]) == [Word(p.frags[i], !last)] + FragWords(p.frags[i + 1..]);
      words := words + [Word(p.frags[i], !last)];
    }
  }

  // ---------------------------------------------------------------- the device's reading of the words

  function Partial(w: bv64): bool { (w >> 63) == 1 }

  function Unpacked(w: bv64): Segment { Segment(w & ADDR_MASK, (w >> 48) & 0x7fff) }

  /** Splits a stream into packets, each ending at the first word without the partial bit; words
      after the last such word belong to no packet yet. */
  function Decode(ws: seq<bv64>, pending: seq<Segment>): seq<seq<Segment>> {
    if ws == [] then []
    else
      var segs := pending + [Unpacked(ws[0])];
      if Partial(ws[0]) then Decode(ws[1..], segs) else [segs] + Decode(ws[1..], [])
  }

  predicate Fits(s: Segment) { s.len < 0x8000 && s.addr <= ADDR_MASK }

  /** A word gives back its segment and its partial bit exactly if the length is below 2^15 and the
      address below 2^48; a longer length would also set the partial bit. */
  lemma WordRoundTrip(s: Segment, partial: bool)
    ensures Fits(s) <==> Unpacked(Word(s, partial)) == s && Partial(Word(s, partial)) == partial
  {
  }

  /** Where the fields of a word are: the partial bit on top, then 15 bits of length, then 48 of address. */
  lemma WordFields(s: Segment, partial: bool)
    requires s.len < 0x8000 && s.addr < 0x1_0000_0000_0000
    ensures var w := Word(s, partial);
            && w >> 63 == (if partial then 1 else 0)
            && (w >> 48) & 0x7fff == s.len
            && w & 0xffff_ffff_ffff == s.addr
  {
  }

  function Segments(p: Packet): seq<Segment> { [p.head] + p.frags }

  function Packets(ps: seq<Packet>): seq<seq<Segment>> {
    if ps == [] then [] else [Segments(ps[0])] + Packets(ps[1..])
  }

  function Concat(sss: seq<seq<Segment>>): seq<Segment> {
    if sss == [] then [] else sss[0] + Concat(sss[1..])
  }

  predicate FitAll(ss: seq<Segment>) {
    forall i :: 0 <= i < |ss| ==> Fits(ss[i])
  }

  // ---------------------------------------------------------------- decoding well-formed segments

  lemma {:induction false} DecodeFrags(frags: seq<Segment>, rest: seq<bv64>, pending: seq<Segment>)
    requires frags != [] && FitAll(frags)
    ensures Decode(FragWords(frags) + rest, pending) == [pending + frags] + Decode(rest, [])
  {
    var w := Word(frags[0], |frags| > 1);
    WordRoundTrip(frags[0], |frags| > 1);
    var ws := FragWords(frags) + rest;
    assert ws[0] == w && ws[1..] == FragWords(frags[1..]) + rest;
    if |frags| == 1 {
      assert frags == [frags[0]] && ws[1..] == rest;
    } else {
      DecodeFrags(frags[1..], rest, pending + [frags[0]]);
      assert pending + [frags[0]] + frags[1..] == pending + frags;
    }
  }

  lemma {:induction false} DecodePackets(ps: seq<Packet>)
    requires FitAll(Concat(Packets(ps)))
    ensures Decode(StreamWords(ps), []) == Packets(ps)
  {
    if ps != [] {
      var p := ps[0];
      var all := Concat(Packets(ps));
      assert Packets(ps)[1..] == Packets(ps[1..]);
      assert all == Segments(p) + Concat(Packets(ps[1..]));
      assert forall i :: 0 <= i < |Segments(p)| ==> Fits(Segments(p)[i]) by {
        assert forall i :: 0 <= i < |Segments(p)| ==> all[i] == Segments(p)[i];
      }
      forall i | 0 <= i < |Concat(Packets(ps[1..]))|
        ensures Fits(Concat(Packets(ps[1..]))[i])
      {
        assert Concat(Packets(ps[1..]))[i] == all[|Segments(p)| + i];
      }
      DecodePackets(ps[1..]);
      assert PacketWords(p) == FragWords(Segments(p)) by {
        assert Segments(p)[1..] == p.frags;
      }
      DecodeFrags(Segments(p), StreamWords(ps[1..]), []);
      assert [] + Segments(p) == Segments(p);
    }
  }

  // ---------------------------------------------------------------- and of no others

  function AllUnpacked(ws: seq<bv64>): seq<Segment> {
    if ws == [] then [] else [Unpacked(ws[0])] + AllUnpacked(ws[1..])
  }

  // Decoding neither reorders nor invents segments.
  lemma {:induction false} DecodeInOrder(ws: seq<bv64>, pending: seq<Segment>)
    ensures Concat(Decode(ws, pending)) <= pending + AllUnpacked(ws)
  {
    if ws != [] {
      var segs := pending + [Unpacked(ws[0])];
      assert segs + AllUnpacked(ws[1..]) == pending + AllUnpacked(ws);
      if Partial(ws[0]) {
        DecodeInOrder(ws[1..], segs);
      } else {
        DecodeInOrder(ws[1..], []);
        var rest := Decode(ws[1..], []);
        assert ([segs] + rest)[1..] == rest;
        assert [] + AllUnpacked(ws[1..]) == AllUnpacked(ws[1..]);
      }
    }
  }

  // What survives of a segment in its word, whether or not it fits.
  function Narrow(s: Segment): Segment { Segment(s.addr & ADDR_MASK, s.len & 0x7fff) }

  lemma UnpackedWord(s: Segment, partial: bool)
    ensures Unpacked(Word(s, partial)) == Narrow(s)
    ensures Narrow(s) == s <==> Fits(s)
  {
  }

  function NarrowAll(ss: seq<Segment>): (r: seq<Segment>)
    ensures |r| == |ss| && forall i :: 0 <= i < |ss| ==> r[i] == Narrow(ss[i])
  {
    if ss == [] then [] else [Narrow(ss[0])] + NarrowAll(ss[1..])
  }

  lemma {:induction false} FragUnpacked(frags: seq<Segment>)
    ensures AllUnpacked(FragWords(frags)) == NarrowAll(frags)
  {
    if frags != [] {
      var ws := FragWords(frags);
      assert ws[1..] == FragWords(frags[1..]);
      UnpackedWord(frags[0], |frags| > 1);
      FragUnpacked(frags[1..]);
    }
  }

  lemma {:induction false} UnpackedConcat(ws: seq<bv64>, vs: seq<bv64>)
    ensures AllUnpacked(ws + vs) == AllUnpacked(ws) + AllUnpacked(vs)
  {
    if ws == [] {
      assert ws + vs == vs;
    } else {
      assert (ws + vs)[1..] == ws[1..] + vs;
      UnpackedConcat(ws[1..], vs);
    }
  }

  lemma {:induction false} StreamUnpacked(ps: seq<Packet>)
    ensures AllUnpacked(StreamWords(ps)) == NarrowAll(Concat(Packets(ps)))
  {
    if ps != [] {
      var ss := Segments(ps[0]);
      assert PacketWords(ps[0]) == FragWords(ss) by {
        assert ss[1..] == ps[0].frags;
      }
      assert Packets(ps)[1..] == Packets(ps[1..]);
      UnpackedConcat(FragWords(ss), StreamWords(ps[1..]));
      StreamUnpacked(ps[1..]);
      FragUnpacked(ss);
    }
  }

  /** Decoding the words posted for any sequence of packets gives back the packets, with their
      boundaries and every length and address, exactly if all segments fit their fields. */
  lemma StreamRoundTrip(ps: seq<Packet>)
    ensures Decode(StreamWords(ps), []) == Packets(ps) <==> FitAll(Concat(Packets(ps)))
  {
    if FitAll(Concat(Packets(ps))) {
      DecodePackets(ps);
    }
    if Decode(StreamWords(ps), []) == Packets(ps) {
      var all := Concat(Packets(ps));
      DecodeInOrder(StreamWords(ps), []);
      StreamUnpacked(ps);
      assert all == NarrowAll(all);
      forall i | 0 <= i < |all|
        ensures Fits(all[i])
      {
        UnpackedWord(all[i], false);
      }
    }
  }
}
