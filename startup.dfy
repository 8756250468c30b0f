/** Boot-time initialisation of the memory image (Reset_Handler).
    Memory is one word-addressed space of 32-bit words: flash and RAM alike
    are indices into it. The linker symbols become word indices of a Layout. */
module Startup {

  /** The five linker-script symbols the reset handler reads, as word indices.
      `_estack` is only used by the vector table, which is not modelled. */
  datatype Layout = Layout(etext: nat, sdata: nat, edata: nat, sbss: nat, ebss: nat)
  {
    /** Number of words the copy loop moves. */
    function DataWords(): nat { Span(sdata, edata) }

    /** Number of words the zero loop clears. */
    function BssWords(): nat { Span(sbss, ebss) }

    /** Every word either loop touches lies inside a memory of `len` words. */
    predicate FitsIn(len: nat)
    {
      Fits(etext, DataWords(), len) && Fits(sdata, DataWords(), len) && Fits(sbss, BssWords(), len)
    }

    /** The copy loop never reads a word it has already written: the data
        region starts at or below the template, or the template ends before it.
        Disjoint template and data regions are a special case. */
    predicate CopyReadsOnlyTemplate()
    {
      sdata <= etext || etext + DataWords() <= sdata
    }
  }

  /** Iterations of `while (p < end) p++` started at `start`: none when end <= start. */
  function Span(start: nat, end: nat): (r: nat)
    ensures r == 0 <==> end <= start
    ensures r > 0 ==> start + r == end
  {
    if start < end then end - start else 0
  }

  /** A loop of `n` word accesses from `start` stays inside `len` words. */
  predicate Fits(start: nat, n: nat, len: nat)
  {
    n == 0 || start + n <= len
  }

  /** Memory after the first `n` iterations of `*pDest++ = *pSrc++`, starting
      with pSrc at `src` and pDest at `dst`: one word at a time, in order. */
  function CopyForward(m: seq<bv32>, src: nat, dst: nat, n: nat): (r: seq<bv32>)
    requires Fits(src, n, |m|) && Fits(dst, n, |m|)
    ensures |r| == |m|
    decreases n
  {
    if n == 0 then m
    else
      var prev := CopyForward(m, src, dst, n - 1);
      prev[dst + n - 1 := prev[src + n - 1]]
  }

  /** Memory after the first `n` iterations of `*pDest++ = 0`, starting at `dst`. */
  function FillZero(m: seq<bv32>, dst: nat, n: nat): (r: seq<bv32>)
    requires Fits(dst, n, |m|)
    ensures |r| == |m|
    decreases n
  {
    if n == 0 then m
    else FillZero(m, dst, n - 1)[dst + n - 1 := 0]
  }

  /** The memory image Reset_Handler leaves behind before calling main(). */
  function ResetImage(m: seq<bv32>, l: Layout): (r: seq<bv32>)
    requires l.FitsIn(|m|)
    ensures |r| == |m|
  {
    FillZero(CopyForward(m, l.etext, l.sdata, l.DataWords()), l.sbss, l.BssWords())
  }

  /** The copy writes no word outside [dst, dst + n). */
  lemma {:induction false} CopyForwardOutside(m: seq<bv32>, src: nat, dst: nat, n: nat, i: nat)
    requires Fits(src, n, |m|) && Fits(dst, n, |m|)
    requires i < |m| && !(dst <= i < dst + n)
    ensures CopyForward(m, src, dst, n)[i] == m[i]
    decreases n
  {
    if n > 0 {
      CopyForwardOutside(m, src, dst, n - 1, i);
    }
  }

  /** When the loop never reads back what it wrote, word k of the destination
      holds the original word k of the source: the copy is a block copy. */
  lemma {:induction false} CopyForwardInside(m: seq<bv32>, src: nat, dst: nat, n: nat, k: nat)
    requires Fits(src, n, |m|) && Fits(dst, n, |m|)
    requires dst <= src || src + n <= dst
    requires k < n
    ensures CopyForward(m, src, dst, n)[dst + k] == m[src + k]
    decreases n
  {
    if k == n - 1 {
      CopyForwardOutside(m, src, dst, n - 1, src + k);
    } else {
      CopyForwardInside(m, src, dst, n - 1, k);
    }
  }

  /** `q` periods of length `d`, counted one period at a time. */
  function Periods(q: nat, d: nat): (p: nat)
    ensures q > 0 ==> d <= p
    decreases q
  {
    if q == 0 then 0 else Periods(q - 1, d) + d
  }

  /** Counting periods one at a time gives their product. */
  lemma {:induction false} PeriodsIsProduct(q: nat, d: nat)
    ensures Periods(q, d) == q * d
    decreases q
  {
    if q > 0 {
      PeriodsIsProduct(q - 1, d);
      assert q * d == (q - 1) * d + d;
    }
  }

  /** With a template that starts below the destination, the forward loop
      re-reads words it has just written: destination word q periods of
      dst - src past word r (r < dst - src) holds the original template word r. */
  lemma {:induction false} CopyForwardRepeats(m: seq<bv32>, src: nat, dst: nat, n: nat, q: nat, r: nat)
    requires Fits(src, n, |m|) && Fits(dst, n, |m|)
    requires src < dst && r < dst - src && Periods(q, dst - src) + r < n
    ensures CopyForward(m, src, dst, n)[dst + Periods(q, dst - src) + r] == m[src + r]
    decreases n
  {
    var d := dst - src;
    var k := Periods(q, d) + r;
    if k < n - 1 {
      CopyForwardRepeats(m, src, dst, n - 1, q, r);
    } else if q == 0 {
      CopyForwardOutside(m, src, dst, n - 1, src + r);
    } else {
      CopyForwardRepeats(m, src, dst, n - 1, q - 1, r);
    }
  }

  /** The same, by remainder: the destination repeats the first dst - src
      template words over and over. */
  lemma CopyForwardPeriodic(m: seq<bv32>, src: nat, dst: nat, n: nat, k: nat)
    requires Fits(src, n, |m|) && Fits(dst, n, |m|)
    requires src < dst && k < n
    ensures CopyForward(m, src, dst, n)[dst + k] == m[src + k % (dst - src)]
  {
    var d := dst - src;
    var q, r := k / d, k % d;
    assert k == d * q + r;
    PeriodsIsProduct(q, d);
    assert Periods(q, d) + r == k;
    CopyForwardRepeats(m, src, dst, n, q, r);
  }

  /** One instance: copying two words one place up repeats the first word. */
  lemma CopyForwardOverlapRepeats()
    ensures CopyForward([1, 2, 3], 0, 1, 2) == [1, 1, 1]
  {
  }

  /** The zero loop clears exactly [dst, dst + n) and keeps every other word. */
  lemma {:induction false} FillZeroAt(m: seq<bv32>, dst: nat, n: nat, i: nat)
    requires Fits(dst, n, |m|) && i < |m|
    ensures FillZero(m, dst, n)[i] == if dst <= i < dst + n then 0 else m[i]
    decreases n
  {
    if n > 0 {
      FillZeroAt(m, dst, n - 1, i);
    }
  }

  /** Word by word, the image after reset: the BSS region is zero (the zero
      loop runs last, so it wins where the regions overlap), the data region
      holds the template, and every other word is as it was. */
  lemma ResetImageAt(m: seq<bv32>, l: Layout, i: nat)
    requires l.FitsIn(|m|) && l.CopyReadsOnlyTemplate() && i < |m|
    ensures ResetImage(m, l)[i] ==
      if l.sbss <= i < l.sbss + l.BssWords() then 0
      else if l.sdata <= i < l.sdata + l.DataWords() then m[l.etext + (i - l.sdata)]
      else m[i]
  {
    var copied := CopyForward(m, l.etext, l.sdata, l.DataWords());
    FillZeroAt(copied, l.sbss, l.BssWords(), i);
    if l.sdata <= i < l.sdata + l.DataWords() {
      CopyForwardInside(m, l.etext, l.sdata, l.DataWords(), i - l.sdata);
    } else {
      CopyForwardOutside(m, l.etext, l.sdata, l.DataWords(), i);
    }
  }

  /** With the data and BSS regions apart, the data region survives the zero
      loop: [sdata, edata) is an exact copy of the template at etext. */
  lemma ResetImageData(m: seq<bv32>, l: Layout, k: nat)
    requires l.FitsIn(|m|) && l.CopyReadsOnlyTemplate()
    requires l.sdata + l.DataWords() <= l.sbss || l.sbss + l.BssWords() <= l.sdata
    requires k < l.DataWords()
    ensures ResetImage(m, l)[l.sdata + k] == m[l.etext + k]
  {
    ResetImageAt(m, l, l.sdata + k);
  }

  /** The template itself is left intact when it lies outside both regions. */
  lemma ResetImageKeepsTemplate(m: seq<bv32>, l: Layout, k: nat)
    requires l.FitsIn(|m|) && k < l.DataWords()
    requires l.etext + l.DataWords() <= l.sdata || l.sdata + l.DataWords() <= l.etext
    requires l.etext + l.DataWords() <= l.sbss || l.sbss + l.BssWords() <= l.etext
    ensures ResetImage(m, l)[l.etext + k] == m[l.etext + k]
  {
    ResetImageAt(m, l, l.etext + k);
  }

  /** With both bounds reversed or equal, neither loop writes anything. */
  lemma ResetImageEmptyLayout(m: seq<bv32>, l: Layout)
    requires l.edata <= l.sdata && l.ebss <= l.sbss
    ensures l.FitsIn(|m|) && ResetImage(m, l) == m
  {
  }

  /** Step 2 of Reset_Handler: copy the initialised-data template from
      `etext` into [sdata, edata). Returns how many words were written. */
  method CopyData(mem: array<bv32>, etext: nat, sdata: nat, edata: nat) returns (writes: nat)
    requires Fits(etext, Span(sdata, edata), mem.Length) && Fits(sdata, Span(sdata, edata), mem.Length)
    modifies mem
    ensures writes == Span(sdata, edata)
    ensures mem[..] == CopyForward(old(mem[..]), etext, sdata, writes)
  {
    var pSrc, pDest := etext, sdata;
    while pDest < edata
      invariant sdata <= pDest && pSrc == etext + (pDest - sdata)
      invariant pDest - sdata <= Span(sdata, edata)
      invariant mem[..] == CopyForward(old(mem[..]), etext, sdata, pDest - sdata)
      decreases edata - pDest
    {
      mem[pDest] := mem[pSrc];
      pDest, pSrc := pDest + 1, pSrc + 1;
    }
    writes := pDest - sdata;
  }

  /** Step 3 of Reset_Handler: write zero to every word of [sbss, ebss).
      Returns how many words were written. */
  method ZeroBss(mem: array<bv32>, sbss: nat, ebss: nat) returns (writes: nat)
    requires Fits(sbss, Span(sbss, ebss), mem.Length)
    modifies mem
    ensures writes == Span(sbss, ebss)
    ensures mem[..] == FillZero(old(mem[..]), sbss, writes)
  {
    var pDest := sbss;
    while pDest < ebss
      invariant sbss <= pDest && pDest - sbss <= Span(sbss, ebss)
      invariant mem[..] == FillZero(old(mem[..]), sbss, pDest - sbss)
      decreases ebss - pDest
    {
      mem[pDest] := 0;
      pDest := pDest + 1;
    }
    writes := pDest - sbss;
  }

  /** Reset_Handler up to the call of main(): the data copy, then the BSS zeroing. */
  method ResetHandler(mem: array<bv32>, l: Layout)
    requires l.FitsIn(mem.Length)
    modifies mem
    ensures mem[..] == ResetImage(old(mem[..]), l)
  {
    var _ := CopyData(mem, l.etext, l.sdata, l.edata);
    var _ := ZeroBss(mem, l.sbss, l.ebss);
  }
}
