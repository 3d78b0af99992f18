/**
 * What the two passes of Program.java compute, as functions of the
 * instruction list: the address of each instruction (the prefix sum of the
 * sizes before it), the symbol table the link pass builds, and the words
 * the encode pass emits. The loops of `Program.Link` and `Program.WriteHex`
 * are proved against these functions; the lemmas below state what the
 * functions guarantee.
 */
module Layout {
  import opened Wrappers
  import opened Expressions
  import opened Instructions

  // ---------------------------------------------------------------------
  // Addresses

  /** The number of words the instructions of `s` occupy. */
  function SizeSum(enc: Encoding, s: seq<Instruction>): (n: nat)
    ensures n >= |s|
    decreases |s|
  {
    if s == [] then 0 else SizeSum(enc, s[..|s| - 1]) + enc.size(s[|s| - 1])
  }

  /** The address of instruction `k`: the words before it, counted from 0. */
  function AddressOf(enc: Encoding, s: seq<Instruction>, k: nat): nat
    requires k <= |s|
  {
    SizeSum(enc, s[..k])
  }

  /** Passing instruction `k` advances the address by its size. */
  lemma AddressStep(enc: Encoding, s: seq<Instruction>, k: nat)
    requires k < |s|
    ensures AddressOf(enc, s, k + 1) == AddressOf(enc, s, k) + enc.size(s[k])
  {
    assert s[..k + 1][..k] == s[..k];
  }

  /**
   * Addresses strictly increase along the program, so distinct instructions
   * never share an address.
   */
  lemma {:induction false} AddressesIncrease(enc: Encoding, s: seq<Instruction>, j: nat, k: nat)
    requires j < k <= |s|
    ensures AddressOf(enc, s, j) + enc.size(s[j]) <= AddressOf(enc, s, k)
  {
    AddressStep(enc, s, k - 1);
    if j < k - 1 {
      AddressesIncrease(enc, s, j, k - 1);
    }
  }

  /** Addresses depend only on the sizes, position by position. */
  lemma {:induction false} SizeSumBySizes(enc1: Encoding, s: seq<Instruction>, enc2: Encoding, t: seq<Instruction>)
    requires |s| == |t|
    requires forall k :: 0 <= k < |s| ==> enc1.size(s[k]) == enc2.size(t[k])
    ensures SizeSum(enc1, s) == SizeSum(enc2, t)
  {
    if s != [] {
      SizeSumBySizes(enc1, s[..|s| - 1], enc2, t[..|t| - 1]);
    }
  }

  // ---------------------------------------------------------------------
  // The link pass

  /** `Context.addIdentifier` refusing a label already bound, at instruction `index`. */
  datatype LinkError = DuplicateLabel(name: string, index: nat)

  /** The labels attached to instructions of `s`. */
  function Labels(s: seq<Instruction>): set<string>
  {
    set k | 0 <= k < |s| && s[k].labelName.Some? :: s[k].labelName.value
  }

  /** No label name is attached to two instructions. */
  predicate DistinctLabels(s: seq<Instruction>)
  {
    forall j, k :: 0 <= j < k < |s| && s[j].labelName.Some? ==> s[j].labelName != s[k].labelName
  }

  /**
   * The symbol table of the link pass over `s`, starting from an empty
   * table: each label is bound to the address of its instruction; the pass
   * stops at the first label bound a second time.
   */
  function Linked(enc: Encoding, s: seq<Instruction>): Result<map<string, int>, LinkError>
    decreases |s|
  {
    if s == [] then Ok(map[])
    else
      var pre := s[..|s| - 1];
      match Linked(enc, pre)
      case Err(e) => Err(e)
      case Ok(m) =>
        match s[|s| - 1].labelName
        case None => Ok(m)
        case Some(n) =>
          if n in m then Err(DuplicateLabel(n, |s| - 1)) else Ok(m[n := SizeSum(enc, pre)])
  }

  /** One iteration of the link loop: the pass over `s[..k+1]` from the pass over `s[..k]`. */
  lemma LinkedStep(enc: Encoding, s: seq<Instruction>, k: nat)
    requires k < |s|
    ensures Linked(enc, s[..k + 1]) ==
      match Linked(enc, s[..k])
      case Err(e) => Err(e)
      case Ok(m) =>
        match s[k].labelName
        case None => Ok(m)
        case Some(n) =>
          if n in m then Err(DuplicateLabel(n, k)) else Ok(m[n := AddressOf(enc, s, k)])
  {
    assert s[..k + 1][..k] == s[..k];
  }

  /** Once the pass has failed on a prefix, it fails with the same error on the whole program. */
  lemma {:induction false} LinkedErrSticky(enc: Encoding, s: seq<Instruction>, k: nat)
    requires k <= |s|
    requires Linked(enc, s[..k]).Err?
    ensures Linked(enc, s) == Linked(enc, s[..k])
  {
    if k < |s| {
      assert s[..|s| - 1][..k] == s[..k];
      LinkedErrSticky(enc, s[..|s| - 1], k);
    } else {
      assert s[..k] == s;
    }
  }

  /** Appending one instruction adds its label, if it has one, to the labels. */
  lemma LabelsSnoc(s: seq<Instruction>)
    requires s != []
    ensures Labels(s) == Labels(s[..|s| - 1]) +
      (if s[|s| - 1].labelName.Some? then {s[|s| - 1].labelName.value} else {})
  {
    var pre := s[..|s| - 1];
    forall n | n in Labels(s)
      ensures n in Labels(pre) || s[|s| - 1].labelName == Some(n)
    {
      var k :| 0 <= k < |s| && s[k].labelName.Some? && s[k].labelName.value == n;
      if k < |pre| {
        assert pre[k] == s[k];
      }
    }
    forall n | n in Labels(pre)
      ensures n in Labels(s)
    {
      var k :| 0 <= k < |pre| && pre[k].labelName.Some? && pre[k].labelName.value == n;
      assert s[k] == pre[k];
    }
  }

  /** After a successful link pass the symbol table holds exactly the labels of the program. */
  lemma {:induction false} LinkedKeys(enc: Encoding, s: seq<Instruction>)
    requires Linked(enc, s).Ok?
    ensures Linked(enc, s).value.Keys == Labels(s)
  {
    if s != [] {
      LinkedKeys(enc, s[..|s| - 1]);
      LabelsSnoc(s);
    }
  }

  /** After a successful link pass each label is bound to the address of its instruction. */
  lemma {:induction false} LinkedBinding(enc: Encoding, s: seq<Instruction>, k: nat)
    requires Linked(enc, s).Ok?
    requires k < |s| && s[k].labelName.Some?
    ensures s[k].labelName.value in Linked(enc, s).value
    ensures Linked(enc, s).value[s[k].labelName.value] == AddressOf(enc, s, k)
  {
    var pre := s[..|s| - 1];
    if k == |s| - 1 {
      assert s[..k] == pre;
    } else {
      assert pre[..k] == s[..k];
      assert pre[k] == s[k];
      LinkedBinding(enc, pre, k);
    }
  }

  /**
   * After a successful link pass the symbol table holds exactly the labels
   * of labelled instructions, each bound to the address of its instruction.
   */
  lemma LinkedSymbols(enc: Encoding, s: seq<Instruction>)
    requires Linked(enc, s).Ok?
    ensures Linked(enc, s).value.Keys == Labels(s)
    ensures forall k :: 0 <= k < |s| && s[k].labelName.Some? ==>
      Linked(enc, s).value[s[k].labelName.value] == AddressOf(enc, s, k)
  {
    LinkedKeys(enc, s);
    forall k | 0 <= k < |s| && s[k].labelName.Some?
      ensures Linked(enc, s).value[s[k].labelName.value] == AddressOf(enc, s, k)
    {
      LinkedBinding(enc, s, k);
    }
  }

  /** The link pass succeeds exactly when no label is attached twice. */
  lemma {:induction false} LinkedOkIffDistinct(enc: Encoding, s: seq<Instruction>)
    ensures Linked(enc, s).Ok? <==> DistinctLabels(s)
  {
    if s != [] {
      var pre := s[..|s| - 1];
      var last := s[|s| - 1];
      LinkedOkIffDistinct(enc, pre);
      assert forall k :: 0 <= k < |pre| ==> pre[k] == s[k];
      if Linked(enc, pre).Ok? {
        LinkedSymbols(enc, pre);
        if last.labelName.Some? && last.labelName.value in Labels(pre) {
          var j :| 0 <= j < |pre| && pre[j].labelName == last.labelName;
          assert s[j].labelName == s[|s| - 1].labelName;
        }
      } else {
        assert !DistinctLabels(pre);
      }
    }
  }

  /**
   * A failed link pass reports the first instruction whose label was
   * already attached to an earlier one; before it, labels are distinct and
   * the table holds their bindings.
   */
  lemma {:induction false} LinkedErrIsFirstDuplicate(enc: Encoding, s: seq<Instruction>)
    requires Linked(enc, s).Err?
    ensures var e := Linked(enc, s).error;
      e.index < |s| && s[e.index].labelName == Some(e.name) &&
      (exists j :: 0 <= j < e.index && s[j].labelName == Some(e.name)) &&
      DistinctLabels(s[..e.index]) && Linked(enc, s[..e.index]).Ok?
  {
    var pre := s[..|s| - 1];
    assert s[..|s| - 1][..|s| - 1] == pre;
    if Linked(enc, pre).Err? {
      LinkedErrIsFirstDuplicate(enc, pre);
      var e := Linked(enc, pre).error;
      assert pre[..e.index] == s[..e.index];
      assert pre[e.index] == s[e.index];
      var j :| 0 <= j < e.index && pre[j].labelName == Some(e.name);
      assert s[j] == pre[j];
    } else {
      var n := s[|s| - 1].labelName.value;
      LinkedSymbols(enc, pre);
      LinkedOkIffDistinct(enc, pre);
      assert n in Labels(pre);
      var j :| 0 <= j < |pre| && pre[j].labelName == Some(n);
      assert s[j] == pre[j];
    }
  }

  /**
   * The link pass reads nothing but the labels and the sizes of the
   * instructions: two programs that agree on those, position by position,
   * link to the same table, whatever their constants and their machine code.
   */
  lemma {:induction false} LinkedByLayout(enc1: Encoding, s: seq<Instruction>, enc2: Encoding, t: seq<Instruction>)
    requires |s| == |t|
    requires forall k :: 0 <= k < |s| ==> s[k].labelName == t[k].labelName && enc1.size(s[k]) == enc2.size(t[k])
    ensures Linked(enc1, s) == Linked(enc2, t)
  {
    if s != [] {
      var ps, pt := s[..|s| - 1], t[..|t| - 1];
      LinkedByLayout(enc1, ps, enc2, pt);
      SizeSumBySizes(enc1, ps, enc2, pt);
    }
  }

  /**
   * Under the design's size invariant, label addresses never depend on the
   * values of constants: changing them leaves the symbol table unchanged.
   */
  lemma {:induction false} LinkedIgnoresConstants(enc: Encoding, s: seq<Instruction>, t: seq<Instruction>)
    requires SizeByShape(enc)
    requires |s| == |t|
    requires forall k :: 0 <= k < |s| ==> SameShape(s[k], t[k])
    ensures Linked(enc, s) == Linked(enc, t)
  {
    LinkedByLayout(enc, s, enc, t);
  }

  // ---------------------------------------------------------------------
  // The encode pass

  /** The machine code of instruction `k`, encoded at its own address. */
  function CodeAt(enc: Encoding, symbols: map<string, int>, s: seq<Instruction>, k: nat): Result<seq<int>, ExprError>
    requires k < |s|
  {
    enc.code(s[k], Context(AddressOf(enc, s, k), symbols))
  }

  /** The first `k` instructions encode without an error. */
  predicate EncodesUpTo(enc: Encoding, symbols: map<string, int>, s: seq<Instruction>, k: nat)
    requires k <= |s|
  {
    forall j :: 0 <= j < k ==> CodeAt(enc, symbols, s, j).Ok?
  }

  /** The words of the first `k` instructions, in program order. */
  function Emitted(enc: Encoding, symbols: map<string, int>, s: seq<Instruction>, k: nat): seq<int>
    requires k <= |s| && EncodesUpTo(enc, symbols, s, k)
    decreases k
  {
    if k == 0 then [] else Emitted(enc, symbols, s, k - 1) + CodeAt(enc, symbols, s, k - 1).value
  }

  /** Every instruction that encodes emits exactly as many words as its size. */
  ghost predicate CodeFitsSize(enc: Encoding, symbols: map<string, int>, s: seq<Instruction>)
  {
    forall k :: 0 <= k < |s| && CodeAt(enc, symbols, s, k).Ok? ==>
      |CodeAt(enc, symbols, s, k).value| == enc.size(s[k])
  }

  /** At most one instruction can be the first to fail. */
  lemma FirstFailureUnique(enc: Encoding, symbols: map<string, int>, s: seq<Instruction>, j: nat, k: nat)
    requires j < |s| && k < |s|
    requires EncodesUpTo(enc, symbols, s, j) && CodeAt(enc, symbols, s, j).Err?
    requires EncodesUpTo(enc, symbols, s, k) && CodeAt(enc, symbols, s, k).Err?
    ensures j == k
  {
  }

  /** The image of the first `k` instructions is as long as their sizes add up to. */
  lemma {:induction false} EmittedLength(enc: Encoding, symbols: map<string, int>, s: seq<Instruction>, k: nat)
    requires k <= |s| && EncodesUpTo(enc, symbols, s, k)
    requires CodeFitsSize(enc, symbols, s)
    ensures |Emitted(enc, symbols, s, k)| == AddressOf(enc, s, k)
  {
    if k > 0 {
      EmittedLength(enc, symbols, s, k - 1);
      AddressStep(enc, s, k - 1);
    }
  }

  /**
   * When each instruction emits as many words as its size, the words of
   * instruction `j` occupy the image exactly from its address up to the
   * next instruction's address: the address handed to an instruction is its
   * position in the image.
   */
  lemma {:induction false} EmittedLayout(enc: Encoding, symbols: map<string, int>, s: seq<Instruction>, k: nat, j: nat)
    requires j < k <= |s| && EncodesUpTo(enc, symbols, s, k)
    requires CodeFitsSize(enc, symbols, s)
    ensures |Emitted(enc, symbols, s, k)| == AddressOf(enc, s, k)
    ensures AddressOf(enc, s, j) <= AddressOf(enc, s, j + 1) <= AddressOf(enc, s, k)
    ensures Emitted(enc, symbols, s, k)[AddressOf(enc, s, j)..AddressOf(enc, s, j + 1)] == CodeAt(enc, symbols, s, j).value
  {
    EmittedLength(enc, symbols, s, k);
    EmittedLength(enc, symbols, s, k - 1);
    AddressStep(enc, s, j);
    var prev := Emitted(enc, symbols, s, k - 1);
    if j < k - 1 {
      AddressesIncrease(enc, s, j, k - 1);
      EmittedLayout(enc, symbols, s, k - 1, j);
      AddressStep(enc, s, k - 1);
    }
  }

  /**
   * The two passes agree: after a successful link and a complete encode,
   * a label is bound to the address at which the labelled instruction's
   * words stand in the emitted image.
   */
  lemma LabelAddressesItsCode(enc: Encoding, s: seq<Instruction>, k: nat)
    requires Linked(enc, s).Ok?
    requires EncodesUpTo(enc, Linked(enc, s).value, s, |s|)
    requires CodeFitsSize(enc, Linked(enc, s).value, s)
    requires k < |s| && s[k].labelName.Some?
    ensures s[k].labelName.value in Linked(enc, s).value
    ensures Linked(enc, s).value[s[k].labelName.value] == AddressOf(enc, s, k)
    ensures AddressOf(enc, s, k) + enc.size(s[k]) <= |Emitted(enc, Linked(enc, s).value, s, |s|)|
    ensures Emitted(enc, Linked(enc, s).value, s, |s|)[AddressOf(enc, s, k)..AddressOf(enc, s, k) + enc.size(s[k])]
      == CodeAt(enc, Linked(enc, s).value, s, k).value
  {
    LinkedBinding(enc, s, k);
    EmittedLayout(enc, Linked(enc, s).value, s, |s|, k);
    AddressStep(enc, s, k);
  }
}
