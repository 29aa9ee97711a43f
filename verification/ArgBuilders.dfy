/** The two builders of the argument stack, writing into the page under PHYS_BASE
    (Original Files/process.c:599-657, userprog/process.c:503-555). */
module ArgBuilders {
  import opened Machine
  import opened ArgStack

  predicate AllNulFree(tokens: seq<Token>) {
    forall i :: 0 <= i < |tokens| ==> NulFree(tokens[i])
  }

  function Byte(b: byte): (s: seq<byte>)
    ensures |s| == 1
  {
    [b]
  }

  /** The stack page and the stack pointer that moves down through it. */
  class StackPage {
    const page: array<byte>
    var esp: int

    ghost predicate Valid()
      reads this
    {
      page.Length == PGSIZE && USER_STACK_VADDR <= esp <= PHYS_BASE
    }

    /** The bytes from the stack pointer up. */
    ghost function Live(): (live: seq<byte>)
      requires Valid()
      reads this, page
      ensures |live| == PHYS_BASE - esp && Esp(live) == esp
    {
      page[esp - USER_STACK_VADDR..]
    }

    /** A zeroed page with the stack pointer at its end. */
    constructor ()
      ensures Valid() && fresh(page) && Live() == []
    {
      page := new byte[PGSIZE](i => 0);
      esp := PHYS_BASE;
    }

    // ------------------------------------------------------------ one push

    /** `push_byte_to_stack`. */
    method PushByte(val: byte) returns (ok: bool)
      requires Valid()
      modifies this, page
      ensures ok == (|old(Live())| + 1 <= PGSIZE)
      ensures ok ==> Valid() && Live() == Byte(val) + old(Live())
    {
      esp := esp - 1;
      if esp < USER_STACK_VADDR {
        return false;
      }
      page[esp - USER_STACK_VADDR] := val;
      return true;
    }

    /** `push_word_to_stack`. */
    method PushWord(val: word) returns (ok: bool)
      requires Valid()
      modifies this, page
      ensures ok == (|old(Live())| + 4 <= PGSIZE)
      ensures ok ==> Valid() && Live() == WordBytes(val) + old(Live())
    {
      esp := esp - 4;
      if esp < USER_STACK_VADDR {
        return false;
      }
      StoreWord(esp - USER_STACK_VADDR, val);
      return true;
    }

    method StoreWord(at: nat, val: word)
      requires at + 4 <= page.Length
      modifies page
      ensures page[..] == old(page[..at]) + WordBytes(val) + old(page[at + 4..])
    {
      var b := WordBytes(val);
      page[at], page[at + 1], page[at + 2], page[at + 3] := b[0], b[1], b[2], b[3];
    }

    /** Moves the stack pointer down by a length and copies that many bytes there, with no check. */
    method CopyDown(bytes: seq<byte>)
      requires Valid() && |Live()| + |bytes| <= PGSIZE
      modifies this, page
      ensures Valid() && Live() == bytes + old(Live())
    {
      esp := esp - |bytes|;
      forall k | 0 <= k < |bytes| {
        page[esp - USER_STACK_VADDR + k] := bytes[k];
      }
    }

    // ------------------------------------------------------------ right to left

    /** One string, its NUL first. */
    method PushString(t: Token) returns (ok: bool)
      requires Valid()
      modifies this, page
      ensures ok == (|old(Live())| + |t| + 1 <= PGSIZE)
      ensures ok ==> Valid() && Live() == t + [0] + old(Live())
    {
      var s := t + [0];
      ghost var above := Live();
      FromStart(s, above);
      hide From, Byte;
      var j := |t|;
      while j >= 0
        invariant -1 <= j <= |t|
        invariant Valid() && Live() == From(s, j + 1, above)
      {
        var pushed := PushByte(s[j]);
        if !pushed {
          return false;
        }
        FromNext(s, j, above);
        j := j - 1;
      }
      FromStart(s, above);
      return true;
    }

    /** Every string, the last one first; the pointers to them replace the vector's entries. */
    method PushStrings(tokens: seq<Token>, argv: array<word>) returns (ok: bool)
      requires Valid() && Live() == [] && argv.Length == |tokens| && argv as object != page
      modifies this, page, argv
      ensures ok == (StringsSize(tokens) <= PGSIZE)
      ensures |Forward(tokens)| == StringsSize(tokens)
      ensures ok ==> Valid() && Live() == Forward(tokens) && argv[..] == ForwardPtrs(tokens)
    {
      Sizes(tokens);
      LastString(tokens);
      hide Forward, StringsSize;
      var i := |tokens| - 1;
      while i >= 0
        invariant -1 <= i < |tokens|
        invariant Valid() && Live() == Forward(tokens[i + 1..])
        invariant forall k :: i < k < |tokens| ==> argv[k] == PHYS_BASE - |Forward(tokens[k..])|
      {
        NextString(tokens, i);
        var pushed := PushString(tokens[i]);
        if !pushed {
          return false;
        }
        argv[i] := esp;
        i := i - 1;
      }
      assert tokens[0..] == tokens;
      return true;
    }

    /** `n` zero bytes. */
    method PushZeros(n: nat) returns (ok: bool)
      requires Valid()
      modifies this, page
      ensures ok == (|old(Live())| + n <= PGSIZE)
      ensures ok ==> Valid() && Live() == Zeros(n) + old(Live())
    {
      ghost var above := Live();
      NoZeros(n, above);
      hide ZerosDownTo, Byte, Zeros;
      var i := n;
      while i > 0
        invariant 0 <= i <= n
        invariant Valid() && ZerosDownTo(Live(), n, i, above)
      {
        OneMoreZero(Live(), n, i, above);
        var pushed := PushByte(0);
        if !pushed {
          return false;
        }
        i := i - 1;
      }
      AllZeros(Live(), n, above);
      return true;
    }

    /** The null that ends the vector, then its pointers, the last one first. */
    method PushVector(argv: array<word>) returns (ok: bool)
      requires Valid() && argv as object != page
      modifies this, page
      ensures ok == (|old(Live())| + 4 * (argv.Length + 1) <= PGSIZE)
      ensures ok ==> Valid() && Live() == Words(argv[..] + [0]) + old(Live())
    {
      ghost var ws, above := argv[..] + [0], Live();
      var pushed := PushWord(0);
      if !pushed {
        return false;
      }
      var i := argv.Length - 1;
      assert ws[argv.Length..] == [0] && Words([0]) == WordBytes(0);
      hide Words, WordBytes;
      while i >= 0
        invariant -1 <= i < argv.Length
        invariant Valid() && Live() == Words(ws[i + 1..]) + above
      {
        pushed := PushWord(argv[i]);
        if !pushed {
          return false;
        }
        WordsFrom(ws, i, above);
        i := i - 1;
      }
      assert ws[0..] == ws;
      return true;
    }

    /** The vector's address, the argument count and the null return address. */
    method PushHeads(argc: nat) returns (ok: bool)
      requires Valid() && argc < ADDRESS_SPACE
      modifies this, page
      ensures ok == (|old(Live())| + 12 <= PGSIZE)
      ensures ok ==> Valid() && Live() == Words([0, argc, old(esp)]) + old(Live())
    {
      var argv: word := esp;
      HeadsOver(argc, argv, Live());
      hide Words, WordBytes;
      ok := PushWord(argv);
      if ok {
        ok := PushWord(argc);
      }
      if ok {
        ok := PushWord(0);
      }
    }

    /** `push_args_to_stack`: it succeeds exactly when everything fits in the page, and then leaves
        what `main` reads back as these arguments. */
    method PushArgs(tokens: seq<Token>) returns (ok: bool)
      requires Valid() && Live() == []
      modifies this, page
      ensures ok == (TotalSize(tokens) <= PGSIZE)
      ensures |Forward(tokens)| == StringsSize(tokens)
      ensures ok ==> Valid() && Live() == Block(Forward(tokens), ForwardPtrs(tokens))
      ensures ok && AllNulFree(tokens) ==> Decode(Live()) == tokens && esp % 4 == 0
    {
      hide Forward, ForwardPtrs, Words, WordBytes, Zeros, Decode, AllNulFree;
      var argv := new word[|tokens|];
      ok := PushStrings(tokens, argv);
      if ok {
        ok := PushZeros(esp % 4);
      }
      if ok {
        ok := PushVector(argv);
      }
      if ok {
        assert Live() == Pushed(Forward(tokens), ForwardPtrs(tokens));
        ok := PushHeads(|tokens|);
        if ok && AllNulFree(tokens) {
          DecodesForward(tokens);
        }
      }
    }

    // ------------------------------------------------------------ left to right

    /** The strings, the first one first, with a vector that doubles when full: there is always room
        left for its null. */
    method CopyStrings(tokens: seq<Token>) returns (argv: array<word>)
      requires Valid() && Live() == [] && StringsSize(tokens) <= PGSIZE
      modifies this, page
      ensures fresh(argv) && argv.Length > |tokens|
      ensures |Backward(tokens)| == StringsSize(tokens)
      ensures Valid() && Live() == Backward(tokens) && argv[..|tokens|] == BackwardPtrs(tokens)
    {
      BackwardSize(tokens);
      hide Backward, StringsSize;
      argv := new word[2];
      var argc := 0;
      NoStrings(tokens);
      while argc < |tokens|
        invariant 0 <= argc <= |tokens| && argc < argv.Length && fresh(argv)
        invariant Valid() && Live() == Backward(tokens[..argc])
        invariant forall k :: 0 <= k < argc ==> argv[k] == PHYS_BASE - |Backward(tokens[..k + 1])|
      {
        OneMoreString(tokens, argc);
        CopyDown(tokens[argc] + [0]);
        argv[argc] := esp;
        argc := argc + 1;
        if argc >= argv.Length {
          argv := Doubled(argv);
        }
      }
      assert tokens[..|tokens|] == tokens;
    }

    /** `realloc` to twice the length. */
    static method Doubled(argv: array<word>) returns (larger: array<word>)
      requires argv.Length > 0
      ensures fresh(larger) && larger.Length == 2 * argv.Length
      ensures larger[..argv.Length] == argv[..]
    {
      larger := new word[2 * argv.Length];
      forall k | 0 <= k < argv.Length {
        larger[k] := argv[k];
      }
    }

    /** The vector's entries from `argc` down, the null among them. */
    method CopyVector(argv: array<word>, argc: nat)
      requires Valid() && argc < argv.Length && argv as object != page && |Live()| + 4 * (argc + 1) <= PGSIZE
      modifies this, page
      ensures Valid() && Live() == Words(argv[..argc + 1]) + old(Live())
    {
      var i := argc;
      ghost var ws, above := argv[..argc + 1], Live();
      assert ws[argc + 1..] == [];
      while i >= 0
        invariant -1 <= i <= argc
        invariant Valid() && Live() == Words(ws[i + 1..]) + above
      {
        CopyDown(WordBytes(argv[i]));
        WordsFrom(ws, i, above);
        i := i - 1;
      }
      assert ws[0..] == ws;
    }

    method CopyHeads(argc: nat)
      requires Valid() && argc < ADDRESS_SPACE && |Live()| + 12 <= PGSIZE
      modifies this, page
      ensures Valid() && Live() == Words([0, argc, old(esp)]) + old(Live())
    {
      var argv: word := esp;
      HeadsOver(argc, argv, Live());
      hide Words, WordBytes;
      CopyDown(WordBytes(argv));
      CopyDown(WordBytes(argc));
      CopyDown(WordBytes(0));
    }

    /** `setup_stack` once its page is mapped. It checks no bound, so the arguments must fit. */
    method SetupStack(tokens: seq<Token>)
      requires Valid() && Live() == [] && TotalSize(tokens) <= PGSIZE
      modifies this, page
      ensures |Backward(tokens)| == StringsSize(tokens)
      ensures Valid() && Live() == Block(Backward(tokens), BackwardPtrs(tokens))
      ensures AllNulFree(tokens) ==> Decode(Live()) == tokens && esp % 4 == 0
    {
      var argv := CopyStrings(tokens);
      argv[|tokens|] := 0;
      assert argv[..|tokens| + 1] == BackwardPtrs(tokens) + [0];
      hide Backward, BackwardPtr, Words, WordBytes, Zeros, Decode, AllNulFree;
      if esp % 4 != 0 {
        CopyDown(Zeros(esp % 4));
      }
      assert Live() == Zeros(Padding(StringsSize(tokens))) + Backward(tokens);
      CopyVector(argv, |tokens|);
      assert Live() == Pushed(Backward(tokens), BackwardPtrs(tokens));
      CopyHeads(|tokens|);
      if AllNulFree(tokens) {
        BackwardDecodes(tokens);
      }
    }
  }

  lemma DecodesForward(tokens: seq<Token>)
    requires TotalSize(tokens) <= PGSIZE && AllNulFree(tokens)
    ensures |Forward(tokens)| == StringsSize(tokens)
    ensures var live := Block(Forward(tokens), ForwardPtrs(tokens)); Decode(live) == tokens && Esp(live) % 4 == 0
  {
    hide Block, Forward, ForwardPtrs, Decode;
    ForwardDecodes(tokens);
  }

  lemma LastString(tokens: seq<Token>)
    ensures Forward(tokens[|tokens|..]) == []
  {
    assert tokens[|tokens|..] == [];
  }

  lemma NextString(tokens: seq<Token>, i: nat)
    requires i < |tokens|
    ensures Forward(tokens[i..]) == tokens[i] + [0] + Forward(tokens[i + 1..])
    ensures |Forward(tokens[i..])| <= |Forward(tokens)|
  {
    assert tokens[i..][0] == tokens[i] && tokens[i..][1..] == tokens[i + 1..];
    ForwardSuffix(tokens, i);
  }

  lemma NoStrings(tokens: seq<Token>)
    ensures Backward(tokens[..0]) == []
  {
  }

  lemma OneMoreString(tokens: seq<Token>, argc: nat)
    requires argc < |tokens|
    ensures Backward(tokens[..argc + 1]) == tokens[argc] + [0] + Backward(tokens[..argc])
    ensures |Backward(tokens[..argc + 1])| <= StringsSize(tokens)
  {
    assert tokens[..argc + 1][argc] == tokens[argc] && tokens[..argc + 1][..argc] == tokens[..argc];
    BackwardSuffix(tokens, argc + 1);
    BackwardSize(tokens);
  }

  /** The bytes of `s` from index `j` on, then those above. */
  function From(s: seq<byte>, j: nat, above: seq<byte>): (r: seq<byte>)
    requires j <= |s|
    ensures |r| == |s| - j + |above|
  {
    s[j..] + above
  }

  lemma FromNext(s: seq<byte>, j: nat, above: seq<byte>)
    requires j < |s|
    ensures Byte(s[j]) + From(s, j + 1, above) == From(s, j, above)
  {
    assert s[j..] == [s[j]] + s[j + 1..];
  }

  lemma FromStart(s: seq<byte>, above: seq<byte>)
    ensures From(s, 0, above) == s + above && From(s, |s|, above) == above
  {
    assert s[0..] == s && s[|s|..] == [];
  }

  /** The stack holds all but `i` of `n` zero bytes, then those above. */
  ghost predicate ZerosDownTo(live: seq<byte>, n: nat, i: nat, above: seq<byte>) {
    i <= n && live == Zeros(n - i) + above
  }

  lemma NoZeros(n: nat, above: seq<byte>)
    ensures ZerosDownTo(above, n, n, above)
  {
  }

  lemma OneMoreZero(live: seq<byte>, n: nat, i: nat, above: seq<byte>)
    requires ZerosDownTo(live, n, i, above) && i > 0
    ensures |live| == n - i + |above| && ZerosDownTo(Byte(0) + live, n, i - 1, above)
  {
    assert [0] + Zeros(n - i) == Zeros(n - (i - 1));
  }

  lemma AllZeros(live: seq<byte>, n: nat, above: seq<byte>)
    requires ZerosDownTo(live, n, 0, above)
    ensures live == Zeros(n) + above && |live| == n + |above|
  {
  }

  lemma WordsFrom(ws: seq<word>, i: nat, above: seq<byte>)
    requires i < |ws|
    ensures WordBytes(ws[i]) + (Words(ws[i + 1..]) + above) == Words(ws[i..]) + above
  {
    assert ws[i..][0] == ws[i] && ws[i..][1..] == ws[i + 1..];
  }

  lemma HeadsOver(argc: word, argv: word, above: seq<byte>)
    ensures WordBytes(0) + (WordBytes(argc) + (WordBytes(argv) + above)) == Words([0, argc, argv]) + above
  {
    HeadWords(argc, argv);
    hide Words, WordBytes;
  }

  lemma HeadWords(argc: word, argv: word)
    ensures Words([0, argc, argv]) == WordBytes(0) + WordBytes(argc) + WordBytes(argv)
  {
    var ws: seq<word> := [0, argc, argv];
    assert ws[1..] == [argc, argv] && ws[2..] == [argv];
    assert Words([argv]) == WordBytes(argv);
    assert [argc, argv][1..] == [argv];
    assert Words([argc, argv]) == WordBytes(argc) + WordBytes(argv);
    hide WordBytes;
  }
}
