/**
 Key frames end to end: a picture's blocks written with the packet's own Huffman code come back, followed by the end
 mark.
 */
module FourXmKeyFrame {
  import opened HuffmanForest
  import opened HuffmanTables
  import opened HuffmanDecoder
  import opened HuffmanTheorems
  import opened PrefixCodes
  import opened FourXmIBlock

  const END_MARK: nat := 256

  ghost predicate AllLive(f: seq<nat>, symbols: seq<nat>)
    requires |f| == NODES
  {
    forall k :: 0 <= k < |symbols| ==> symbols[k] < SYMBOLS && f[symbols[k]] > 0
  }

  /** Every symbol the blocks need has a nonzero weight. */
  ghost predicate Weighted(f: seq<nat>, qs: seq<seq<int>>)
    requires |f| == NODES
  {
    forall i :: 0 <= i < |qs| ==> Levels(qs[i]) && AllLive(f, BlockSymbols(qs[i]))
  }

  /**
   For any weights with 2 to 256 live symbols that cover the blocks: decoding restores every block and its predicted
   DC, uses up exactly the printed bits of both streams, and the next symbol is the end mark the decoder checks for.
   */
  lemma KeyFrameRoundTrip(f: seq<nat>, qs: seq<seq<int>>, pre: Bits, raw: Bits)
    requires SymbolWeights(f) && 2 <= LiveCount(f) <= 256 && Weighted(f, qs) && |raw| >= 2
    ensures Codable(SymbolWords(f), qs)
    ensures var words := SymbolWords(f);
            DecodeBlocks(words, |qs|, PicturePre(words, qs) + (words[END_MARK] + pre), PictureRaw(qs) + raw, 0)
              == Picture(Ok, PictureBlocks(qs, 0), words[END_MARK] + pre, raw, LastDc(qs, 0))
            && ReadSymbol(words, words[END_MARK] + pre) == Some(END_MARK)
  {
    var words := SymbolWords(f);
    CodeIsDecodable(f);
    forall i | 0 <= i < |qs| ensures Levels(qs[i]) && Covers(words, BlockSymbols(qs[i])) {
    }
    PictureRoundTrip(words, qs, 0, words[END_MARK] + pre, raw);
    ReadPrinted(words, END_MARK, pre);
  }
}
