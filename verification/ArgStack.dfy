/** The argument stack: what a C program finds at its stack pointer, and the two ways the kernel
    builds it (userprog/process.c:503-555, Original Files/process.c:599-657). */
module ArgStack {
  import opened Machine

  /** The stack page starts here. */
  const USER_STACK_VADDR: nat := PHYS_BASE - PGSIZE

  type Token = seq<byte>

  /** A C string holds no NUL. */
  predicate NulFree(t: Token) {
    forall i :: 0 <= i < |t| ==> t[i] != 0
  }

  // ---------------------------------------------------------------- reading a stack

  /* A stack is the bytes from the stack pointer up to PHYS_BASE. */

  function Esp(live: seq<byte>): int {
    PHYS_BASE - |live|
  }

  /** The bytes from address `a` on. */
  function At(live: seq<byte>, a: int): seq<byte> {
    if Esp(live) <= a <= PHYS_BASE then live[a - Esp(live)..] else []
  }

  /** A little-endian word, 0 if it is not all on the stack. */
  function WordOf(s: seq<byte>): word {
    if |s| < 4 then 0
    else s[0] as int + 0x100 * s[1] as int + 0x1_0000 * s[2] as int + 0x100_0000 * s[3] as int
  }

  function WordAt(live: seq<byte>, a: int): word {
    WordOf(At(live, a))
  }

  /** The C string at the start of some bytes. */
  function CString(s: seq<byte>): Token {
    if s == [] || s[0] == 0 then [] else [s[0]] + CString(s[1..])
  }

  /** What `main (int argc, char *argv[])` reads, the stack pointer being at its return address. */
  function Decode(live: seq<byte>): seq<Token> {
    var argc := WordAt(live, Esp(live) + 4);
    var argv := WordAt(live, Esp(live) + 8);
    seq(argc, i requires 0 <= i < argc => CString(At(live, WordAt(live, argv + 4 * i))))
  }

  // ---------------------------------------------------------------- the stacks that are built

  function WordBytes(w: word): (s: seq<byte>)
    ensures |s| == 4
  {
    [(w % 0x100) as byte, (w / 0x100 % 0x100) as byte, (w / 0x1_0000 % 0x100) as byte, (w / 0x100_0000) as byte]
  }

  function Words(ws: seq<word>): (s: seq<byte>)
    ensures |s| == 4 * |ws|
  {
    if ws == [] then [] else WordBytes(ws[0]) + Words(ws[1..])
  }

  /** Strings in argument order, as pushing the last one first leaves them. */
  function Forward(tokens: seq<Token>): seq<byte> {
    if tokens == [] then [] else tokens[0] + [0] + Forward(tokens[1..])
  }

  /** Strings in reverse order, as pushing the first one first leaves them. */
  function Backward(tokens: seq<Token>): seq<byte> {
    if tokens == [] then []
    else tokens[|tokens| - 1] + [0] + Backward(tokens[..|tokens| - 1])
  }

  function StringsSize(tokens: seq<Token>): nat {
    if tokens == [] then 0 else |tokens[0]| + 1 + StringsSize(tokens[1..])
  }

  /** Zero bytes that bring the stack pointer down to a multiple of 4. */
  function Padding(size: nat): nat {
    (PHYS_BASE - size) % 4
  }

  /** All the bytes the arguments take. */
  function TotalSize(tokens: seq<Token>): nat {
    StringsSize(tokens) + Padding(StringsSize(tokens)) + 4 * (|tokens| + 1) + 12
  }

  /** The vector words (pointers, then a null), the padding and the strings. */
  function Pushed(strings: seq<byte>, ptrs: seq<word>): (s: seq<byte>)
    ensures |s| == |strings| + Padding(|strings|) + 4 * (|ptrs| + 1)
  {
    Words(ptrs + [0]) + (Zeros(Padding(|strings|)) + strings)
  }

  /** Under them: argv, argc and a null return address. */
  function Block(strings: seq<byte>, ptrs: seq<word>): seq<byte>
    requires |strings| + Padding(|strings|) + 4 * (|ptrs| + 1) <= PHYS_BASE
  {
    var argc: word := |ptrs|;
    Words([0, argc, Esp(Pushed(strings, ptrs))]) + Pushed(strings, ptrs)
  }

  function ForwardPtrs(tokens: seq<Token>): (ptrs: seq<word>)
    requires |Forward(tokens)| <= PHYS_BASE
    ensures |ptrs| == |tokens|
  {
    seq(|tokens|, i requires 0 <= i < |tokens| => ForwardPtr(tokens, i))
  }

  function ForwardPtr(tokens: seq<Token>, i: nat): word
    requires i <= |tokens| && |Forward(tokens)| <= PHYS_BASE
  {
    ForwardSuffix(tokens, i);
    PHYS_BASE - |Forward(tokens[i..])|
  }

  function BackwardPtrs(tokens: seq<Token>): (ptrs: seq<word>)
    requires |Backward(tokens)| <= PHYS_BASE
    ensures |ptrs| == |tokens|
  {
    seq(|tokens|, i requires 0 <= i < |tokens| => BackwardPtr(tokens, i))
  }

  function BackwardPtr(tokens: seq<Token>, i: nat): word
    requires i < |tokens| && |Backward(tokens)| <= PHYS_BASE
  {
    BackwardSuffix(tokens, i + 1);
    PHYS_BASE - |Backward(tokens[..i + 1])|
  }

  lemma {:induction false} ForwardSuffix(tokens: seq<Token>, i: nat)
    requires i <= |tokens|
    ensures |Forward(tokens[i..])| <= |Forward(tokens)|
    ensures Forward(tokens)[|Forward(tokens)| - |Forward(tokens[i..])|..] == Forward(tokens[i..])
  {
    if i > 0 {
      ForwardSuffix(tokens[1..], i - 1);
      assert tokens[1..][i - 1..] == tokens[i..];
    } else {
      assert tokens[0..] == tokens;
    }
  }

  lemma {:induction false} BackwardSuffix(tokens: seq<Token>, i: nat)
    requires i <= |tokens|
    ensures |Backward(tokens[..i])| <= |Backward(tokens)|
    ensures Backward(tokens)[|Backward(tokens)| - |Backward(tokens[..i])|..] == Backward(tokens[..i])
  {
    var n := |tokens|;
    if i < n {
      BackwardSuffix(tokens[..n - 1], i);
      assert tokens[..n - 1][..i] == tokens[..i];
    } else {
      assert tokens[..n] == tokens;
    }
  }

  lemma {:induction false} Sizes(tokens: seq<Token>)
    ensures |Forward(tokens)| == StringsSize(tokens)
  {
    if tokens != [] {
      Sizes(tokens[1..]);
    }
  }

  lemma {:induction false} SizeOfAppend(tokens: seq<Token>, t: Token)
    ensures StringsSize(tokens + [t]) == StringsSize(tokens) + |t| + 1
  {
    if tokens == [] {
      assert [] + [t] == [t];
    } else {
      SizeOfAppend(tokens[1..], t);
      assert (tokens + [t])[1..] == tokens[1..] + [t];
    }
  }

  lemma {:induction false} BackwardSize(tokens: seq<Token>)
    ensures |Backward(tokens)| == StringsSize(tokens)
  {
    if tokens != [] {
      var n := |tokens| - 1;
      BackwardSize(tokens[..n]);
      SizeOfAppend(tokens[..n], tokens[n]);
      assert tokens[..n] + [tokens[n]] == tokens;
    }
  }

  // ---------------------------------------------------------------- decoding what was built

  /** A word lies in memory with its least significant byte lowest. */
  lemma LittleEndian(w: word)
    ensures var s := WordBytes(w); w == ((s[3] as int * 0x100 + s[2] as int) * 0x100 + s[1] as int) * 0x100 + s[0] as int
  {
    var a, b, c := w / 0x100, w / 0x1_0000, w / 0x100_0000;
    assert w == a * 0x100 + w % 0x100;
    assert a == b * 0x100 + a % 0x100;
    assert b == c * 0x100 + b % 0x100;
  }

  lemma WordRoundTrip(w: word, rest: seq<byte>)
    ensures WordOf(WordBytes(w) + rest) == w
  {
    var s := WordBytes(w) + rest;
    assert s[0] == WordBytes(w)[0] && s[1] == WordBytes(w)[1] && s[2] == WordBytes(w)[2] && s[3] == WordBytes(w)[3];
  }

  /** The `k`-th of a run of words that lies at address `a`. */
  lemma {:induction false} WordInRun(live: seq<byte>, a: int, ws: seq<word>, rest: seq<byte>, k: nat)
    requires At(live, a) == Words(ws) + rest && k < |ws| && Esp(live) <= a <= PHYS_BASE
    ensures WordAt(live, a + 4 * k) == ws[k]
    decreases k
  {
    if k == 0 {
      assert Words(ws) + rest == WordBytes(ws[0]) + (Words(ws[1..]) + rest);
      WordRoundTrip(ws[0], Words(ws[1..]) + rest);
    } else {
      assert At(live, a)[4..] == Words(ws[1..]) + rest;
      assert At(live, a + 4) == At(live, a)[4..];
      WordInRun(live, a + 4, ws[1..], rest, k - 1);
    }
  }

  lemma {:induction false} CStringOf(t: Token, rest: seq<byte>)
    requires NulFree(t)
    ensures CString(t + [0] + rest) == t
  {
    var s := t + [0] + rest;
    if t == [] {
      assert s[0] == 0;
    } else {
      assert s[0] == t[0];
      assert s[1..] == t[1..] + [0] + rest;
      CStringOf(t[1..], rest);
      assert t == [t[0]] + t[1..];
    }
  }

  lemma BlockHeads(strings: seq<byte>, ptrs: seq<word>)
    requires |strings| + Padding(|strings|) + 4 * (|ptrs| + 1) + 12 <= PHYS_BASE
    ensures var live := Block(strings, ptrs);
      && Esp(live) == PHYS_BASE - |strings| - Padding(|strings|) - 4 * (|ptrs| + 1) - 12
      && WordAt(live, Esp(live)) == 0 && WordAt(live, Esp(live) + 4) == |ptrs| && WordAt(live, Esp(live) + 8) == Esp(live) + 12
  {
    var pushed := Pushed(strings, ptrs);
    var argc: word := |ptrs|;
    var live := Block(strings, ptrs);
    var heads: seq<word> := [0, argc, Esp(pushed)];
    assert At(live, Esp(live)) == Words(heads) + pushed;
    hide Words, WordAt, At, Block;
    WordInRun(live, Esp(live), heads, pushed, 0);
    WordInRun(live, Esp(live), heads, pushed, 1);
    WordInRun(live, Esp(live), heads, pushed, 2);
  }

  lemma BlockVector(strings: seq<byte>, ptrs: seq<word>, i: nat)
    requires |strings| + Padding(|strings|) + 4 * (|ptrs| + 1) + 12 <= PHYS_BASE && i <= |ptrs|
    ensures var live := Block(strings, ptrs); WordAt(live, Esp(live) + 12 + 4 * i) == if i < |ptrs| then ptrs[i] else 0
  {
    var above := Zeros(Padding(|strings|)) + strings;
    var pushed := Pushed(strings, ptrs);
    var live := Block(strings, ptrs);
    assert At(live, Esp(live) + 12) == pushed;
    hide Words, WordAt, At, Block;
    WordInRun(live, Esp(live) + 12, ptrs + [0], above, i);
  }

  /** The words of a block, from the return address to the null that ends the vector. */
  lemma BlockWords(strings: seq<byte>, ptrs: seq<word>)
    requires |strings| + Padding(|strings|) + 4 * (|ptrs| + 1) + 12 <= PHYS_BASE
    ensures var live := Block(strings, ptrs);
      && Esp(live) == PHYS_BASE - |strings| - Padding(|strings|) - 4 * (|ptrs| + 1) - 12
      && WordAt(live, Esp(live)) == 0 && WordAt(live, Esp(live) + 4) == |ptrs| && WordAt(live, Esp(live) + 8) == Esp(live) + 12
      && WordAt(live, Esp(live) + 12 + 4 * |ptrs|) == 0
    ensures var live := Block(strings, ptrs); forall i :: 0 <= i < |ptrs| ==> WordAt(live, Esp(live) + 12 + 4 * i) == ptrs[i]
  {
    hide *;
    BlockHeads(strings, ptrs);
    BlockVector(strings, ptrs, |ptrs|);
    var live := Block(strings, ptrs);
    forall i | 0 <= i < |ptrs| ensures WordAt(live, Esp(live) + 12 + 4 * i) == ptrs[i] {
      BlockVector(strings, ptrs, i);
    }
  }

  /** The strings of a block lie at its top. */
  lemma BlockTop(strings: seq<byte>, ptrs: seq<word>, a: int)
    requires |strings| + Padding(|strings|) + 4 * (|ptrs| + 1) + 12 <= PHYS_BASE
    requires PHYS_BASE - |strings| <= a <= PHYS_BASE
    ensures At(Block(strings, ptrs), a) == strings[a - (PHYS_BASE - |strings|)..]
  {
  }

  /** The padding is as short as alignment allows. */
  lemma Aligned(size: nat, n: nat)
    ensures Padding(size) < 4 && (PHYS_BASE - size - Padding(size) - 4 * n - 12) % 4 == 0
  {
    var q := (PHYS_BASE - size) / 4;
    assert PHYS_BASE - size == 4 * q + Padding(size);
    assert PHYS_BASE - size - Padding(size) - 4 * n - 12 == 4 * (q - n - 3);
  }

  /** A block whose pointers lead to its strings decodes to the tokens, is aligned, and ends its
      vector with a null. */
  lemma BlockDecodes(tokens: seq<Token>, strings: seq<byte>, ptrs: seq<word>)
    requires |strings| + Padding(|strings|) + 4 * (|ptrs| + 1) + 12 <= PHYS_BASE && |ptrs| == |tokens|
    requires forall i :: 0 <= i < |tokens| ==>
      (PHYS_BASE - |strings| <= ptrs[i] <= PHYS_BASE && CString(strings[ptrs[i] - (PHYS_BASE - |strings|)..]) == tokens[i])
    ensures var live := Block(strings, ptrs);
      && Esp(live) == PHYS_BASE - |strings| - Padding(|strings|) - 4 * (|ptrs| + 1) - 12 && Esp(live) % 4 == 0
      && Decode(live) == tokens
      && WordAt(live, WordAt(live, Esp(live) + 8) + 4 * |tokens|) == 0
  {
    hide Block, Words, Padding, WordAt, At, CString, Decode;
    var live := Block(strings, ptrs);
    BlockWords(strings, ptrs);
    Aligned(|strings|, |ptrs| + 1);
    forall i | 0 <= i < |tokens| ensures CString(At(live, WordAt(live, Esp(live) + 12 + 4 * i))) == tokens[i] {
      BlockTop(strings, ptrs, ptrs[i]);
    }
    DecodesTo(live, tokens);
  }

  lemma DecodesTo(live: seq<byte>, tokens: seq<Token>)
    requires WordAt(live, Esp(live) + 4) == |tokens| && WordAt(live, Esp(live) + 8) == Esp(live) + 12
    requires forall i :: 0 <= i < |tokens| ==> CString(At(live, WordAt(live, Esp(live) + 12 + 4 * i))) == tokens[i]
    ensures Decode(live) == tokens
  {
    hide At, WordAt, CString;
  }

  lemma ForwardString(tokens: seq<Token>, i: nat)
    requires i < |tokens| && NulFree(tokens[i]) && |Forward(tokens)| <= PHYS_BASE
    ensures PHYS_BASE - |Forward(tokens)| <= ForwardPtr(tokens, i) <= PHYS_BASE
    ensures CString(Forward(tokens)[ForwardPtr(tokens, i) - (PHYS_BASE - |Forward(tokens)|)..]) == tokens[i]
  {
    ForwardSuffix(tokens, i);
    assert tokens[i..][0] == tokens[i] && tokens[i..][1..] == tokens[i + 1..];
    CStringOf(tokens[i], Forward(tokens[i + 1..]));
  }

  lemma BackwardString(tokens: seq<Token>, i: nat)
    requires i < |tokens| && NulFree(tokens[i]) && |Backward(tokens)| <= PHYS_BASE
    ensures PHYS_BASE - |Backward(tokens)| <= BackwardPtr(tokens, i) <= PHYS_BASE
    ensures CString(Backward(tokens)[BackwardPtr(tokens, i) - (PHYS_BASE - |Backward(tokens)|)..]) == tokens[i]
  {
    BackwardSuffix(tokens, i + 1);
    assert tokens[..i + 1][i] == tokens[i] && tokens[..i + 1][..i] == tokens[..i];
    CStringOf(tokens[i], Backward(tokens[..i]));
  }

  lemma ForwardDecodes(tokens: seq<Token>)
    requires TotalSize(tokens) <= PGSIZE && forall i :: 0 <= i < |tokens| ==> NulFree(tokens[i])
    ensures |Forward(tokens)| == StringsSize(tokens)
    ensures var f := Block(Forward(tokens), ForwardPtrs(tokens));
      Decode(f) == tokens && Esp(f) == PHYS_BASE - TotalSize(tokens) && Esp(f) % 4 == 0
  {
    Sizes(tokens);
    hide Forward, CString, Decode, Block, ForwardPtr;
    forall i | 0 <= i < |tokens| ensures
      PHYS_BASE - |Forward(tokens)| <= ForwardPtr(tokens, i) <= PHYS_BASE &&
      CString(Forward(tokens)[ForwardPtr(tokens, i) - (PHYS_BASE - |Forward(tokens)|)..]) == tokens[i]
    {
      ForwardString(tokens, i);
    }
    BlockDecodes(tokens, Forward(tokens), ForwardPtrs(tokens));
  }

  lemma BackwardDecodes(tokens: seq<Token>)
    requires TotalSize(tokens) <= PGSIZE && forall i :: 0 <= i < |tokens| ==> NulFree(tokens[i])
    ensures |Backward(tokens)| == StringsSize(tokens)
    ensures var b := Block(Backward(tokens), BackwardPtrs(tokens));
      Decode(b) == tokens && Esp(b) == PHYS_BASE - TotalSize(tokens) && Esp(b) % 4 == 0
  {
    BackwardSize(tokens);
    hide Backward, CString, Decode, Block, BackwardPtr;
    forall i | 0 <= i < |tokens| ensures
      PHYS_BASE - |Backward(tokens)| <= BackwardPtr(tokens, i) <= PHYS_BASE &&
      CString(Backward(tokens)[BackwardPtr(tokens, i) - (PHYS_BASE - |Backward(tokens)|)..]) == tokens[i]
    {
      BackwardString(tokens, i);
    }
    BlockDecodes(tokens, Backward(tokens), BackwardPtrs(tokens));
  }

  /** Whatever fits is read back exactly, whichever way round its strings were pushed; both stacks are
      as large, so both programs start with the same stack pointer. */
  lemma BothDecode(tokens: seq<Token>)
    requires TotalSize(tokens) <= PGSIZE && forall i :: 0 <= i < |tokens| ==> NulFree(tokens[i])
    ensures |Forward(tokens)| == |Backward(tokens)| == StringsSize(tokens)
    ensures var f := Block(Forward(tokens), ForwardPtrs(tokens)); var b := Block(Backward(tokens), BackwardPtrs(tokens));
      Decode(f) == Decode(b) == tokens && Esp(f) == Esp(b) == PHYS_BASE - TotalSize(tokens) && Esp(f) % 4 == 0
  {
    hide *;
    ForwardDecodes(tokens);
    BackwardDecodes(tokens);
  }
}
