/** Load and store multiple against the single transfers a program would write instead. */
module TransferLaws {
  import opened Words
  import opened RegistersLaws
  import opened Machine
  import opened Decode
  import opened MultipleSpec
  import opened MultipleLaws
  import opened InstructionSpec
  import opened Assembly
  import opened MeaningLaws
  import M = MemorySpec
  import ML = MemoryLaws

  /** STR Rk, [Rn, #-4]! */
  function StrPre(n: nibble, k: nibble): word
  {
    Encode(14, Transfer(true, false, false, true, false, n, k, 4))
  }

  /** LDR Rk, [Rn], #4 */
  function LdrPost(n: nibble, k: nibble): word
  {
    Encode(14, Transfer(false, true, false, false, true, n, k, 4))
  }

  // ----- STMDB Rn!, list -----

  /** STR Rk, [Rn, #-4]! for each listed register below `n`, highest first. */
  function PushEach(s: State, ins: word, n: nat, u: Uninit): State
    requires n <= 16
    decreases n, ins
  {
    if n == 0 then s
    else PushEach(if Listed(ins, n - 1) then Dispatch(s, StrPre(Rn(ins), n - 1), u).state else s, ins, n - 1, u)
  }

  /** One push, wherever the address falls: an address of 0xFFFFFFFF is refused, but a store there
      would not reach memory either. */
  lemma Push(s: State, n: nibble, k: nibble, u: Uninit)
    requires n < 15 && k != n
    ensures var a := Minus(ReadReg(s, n), 4);
      Dispatch(s, StrPre(n, k), u).state == WriteReg(StoreWord(s, a, ReadReg(s, k)), n, a)
  {
    hide ReadReg, M.Bytes4, M.Store, Encode, Dispatch;
    EveryInstruction(s, 14, Transfer(true, false, false, true, false, n, k, 4), u);
    var a := Minus(ReadReg(s, n), 4);
    ReadAfterWrite(s, n, a, k);
    StoreMisses(s.mem, a, M.Bytes4(ReadReg(s, k), s.be));
  }

  /** A store outside all homes below `n` can be made before or after the stores to them. */
  lemma {:induction false} StoreFirst(s: State, ins: word, start: word, n: nat, a: word, v: word)
    requires n <= 16
    requires forall i: nat :: i < n && Listed(ins, i) ==> Apart(Home(start, ins, i), a)
    ensures StoreBelow(StoreWord(s, a, v), ins, start, n) == StoreWord(StoreBelow(s, ins, start, n), a, v)
  {
    hide GetBit, Home, M.Bytes4, ReadReg, M.Store;
    if n > 0 {
      StoreFirst(s, ins, start, n - 1, a, v);
      if Listed(ins, n - 1) {
        var t := StoreBelow(s, ins, start, n - 1);
        SameRead(t, StoreWord(t, a, v), n - 1);
        WordStoresCommute(t, a, v, Home(start, ins, n - 1), ReadReg(t, n - 1));
      }
    }
  }

  /** Two words that do not overlap within any memory. */
  predicate Apart(a: word, b: word)
  {
    a > M.MAX_SIZE || b > M.MAX_SIZE || a + 4 <= b || b + 4 <= a
  }

  lemma WordStoresCommute(s: State, a: word, v: word, b: word, w: word)
    requires Apart(a, b)
    ensures StoreWord(StoreWord(s, a, v), b, w) == StoreWord(StoreWord(s, b, w), a, v)
  {
    hide M.Bytes4;
    var x, y := M.Bytes4(v, s.be), M.Bytes4(w, s.be);
    if a + 4 <= b || b + 4 <= a {
      ML.StoresCommute(s.mem, a, x, b, y);
    } else {
      StoreMisses(s.mem, a, x);
      StoreMisses(s.mem, b, y);
      StoreMisses(M.Store(s.mem, b, y), a, x);
      StoreMisses(M.Store(s.mem, a, x), b, y);
    }
  }

  lemma StoreMisses(mem: seq<byte>, a: word, bs: seq<byte>)
    ensures a >= |mem| ==> M.Store(mem, a, bs) == mem
  {
  }

  lemma {:induction false} StoreBelowAfterWrite(s: State, ins: word, start: word, n: nat, r: nat, v: word)
    requires n <= 16 && r < 15 && !Listed(ins, r)
    ensures StoreBelow(WriteReg(s, r, v), ins, start, n) == WriteReg(StoreBelow(s, ins, start, n), r, v)
  {
    hide GetBit, Home, M.Bytes4, ReadReg, M.Store;
    if n > 0 {
      StoreBelowAfterWrite(s, ins, start, n - 1, r, v);
      if Listed(ins, n - 1) {
        ReadAfterWrite(StoreBelow(s, ins, start, n - 1), r, v, n - 1);
      }
    }
  }

  /** Pushing the registers below `n` one by one stores them where the block transfer does. */
  lemma {:induction false} PushEachStores(s: State, ins: word, n: nat, u: Uninit)
    requires n <= 16 && Rn(ins) != 15 && !Listed(ins, Rn(ins))
    ensures var start := Minus(ReadReg(s, Rn(ins)), 4 * Count(ins, n));
      PushEach(s, ins, n, u) == WriteReg(StoreBelow(s, ins, start, n), Rn(ins), start)
    decreases n
  {
    hide GetBit, Home, M.Bytes4, ReadReg, M.Store, Dispatch, StrPre, WriteReg, StoreWord;
    var rn := Rn(ins);
    var base := ReadReg(s, rn);
    var start := Minus(base, 4 * Count(ins, n));
    if n == 0 {
      RewriteSame(s, rn);
    } else if Listed(ins, n - 1) {
      var a, v := Minus(base, 4), ReadReg(s, n - 1);
      Push(s, rn, n - 1, u);
      var t := StoreWord(s, a, v);
      var s1 := WriteReg(t, rn, a);
      PushEachStores(s1, ins, n - 1, u);
      ReadAfterWrite(t, rn, a, rn);
      MinusMinus(base, Count(ins, n - 1));
      StoreBelowAfterWrite(t, ins, start, n - 1, rn, a);
      WriteTwice(StoreBelow(t, ins, start, n - 1), rn, a, start);
      HomeBelowBase(base, start, ins, n - 1);
      forall i: nat | i < n - 1 && Listed(ins, i) ensures Apart(Home(start, ins, i), a) {
        if Home(start, ins, i) <= M.MAX_SIZE {
          HomesApart(start, ins, i, n - 1);
        }
      }
      StoreFirst(s, ins, start, n - 1, a, v);
      SameRead(StoreBelow(s, ins, start, n - 1), s, n - 1);
    } else {
      PushEachStores(s, ins, n - 1, u);
    }
  }

  lemma RewriteSame(s: State, r: nat)
    requires r < 15
    ensures WriteReg(s, r, ReadReg(s, r)) == s
  {
  }

  lemma MinusMinus(base: word, k: nat)
    ensures Minus(Minus(base, 4), 4 * k) == Minus(base, 4 * (k + 1))
  {
    hide Wrap;
    WrapSum(base - 4, 0 - 4 * k);
  }

  lemma HomeBelowBase(base: word, start: word, ins: word, n: nat)
    requires Listed(ins, n) && start == Minus(base, 4 * Count(ins, n + 1))
    ensures Home(start, ins, n) == Minus(base, 4)
  {
    hide Wrap, GetBit;
    WrapSum(base - 4 * Count(ins, n + 1), 4 * Count(ins, n));
  }

  /** STMDB Rn!, list leaves the state that STR Rk, [Rn, #-4]! leaves when it is executed for each
      listed register from the highest to the lowest, for any list without Rn and any base. */
  lemma StoreMultipleIsPushes(s: State, ins: word, u: Uninit)
    requires InsType(ins) == 4 && !BitB(ins) && !BitL(ins) && BitP(ins) && !BitU(ins) && BitW(ins)
    requires Rn(ins) != 15 && !Listed(ins, Rn(ins))
    ensures Dispatch(s, ins, u) == Outcome(PushEach(s, ins, 16, u), 0)
  {
    hide InsType, BitB, BitL, BitP, BitU, BitW, GetBit, Home, ReadReg, WriteReg, StoreBelow, PushEach, Count;
    var start := Minus(ReadReg(s, Rn(ins)), 4 * Count(ins, 16));
    PushEachStores(s, ins, 16, u);
    StoreBelowAfterWrite(s, ins, start, 16, Rn(ins), start);
  }

  // ----- LDMIA Rn!, list -----

  /** LDR Rk, [Rn], #4 for each listed register below `n`, lowest first. */
  function PopEach(s: State, ins: word, n: nat, u: Uninit): State
    requires n <= 16
    decreases n, ins
  {
    if n == 0 then s
    else
      var t := PopEach(s, ins, n - 1, u);
      if Listed(ins, n - 1) then Dispatch(t, LdrPost(Rn(ins), n - 1), u).state else t
  }

  lemma Pop(s: State, n: nibble, k: nibble, u: Uninit)
    requires n < 15 && ReadReg(s, n) + 4 <= |s.mem|
    ensures var a := ReadReg(s, n);
      Dispatch(s, LdrPost(n, k), u).state == WriteReg(WriteReg(s, n, Plus(a, 4)), k, WordAt(s, a))
  {
    hide ReadReg, WriteReg, M.Word, LoadWord, Encode, Dispatch;
    EveryInstruction(s, 14, Transfer(false, true, false, false, true, n, k, 4), u);
    LoadInRange(s, ReadReg(s, n), u);
  }

  lemma WritesCommute(s: State, r: nat, v: word, q: nat, w: word)
    requires r < 16 && q < 16 && r != q
    ensures WriteReg(WriteReg(s, r, v), q, w) == WriteReg(WriteReg(s, q, w), r, v)
  {
    SlotInjective(r, q, ModeOf(s));
  }

  lemma {:induction false} LoadBelowAfterWrite(s: State, ins: word, start: word, n: nat, u: Uninit, r: nat, v: word)
    requires n <= 16 && r < 15 && !Listed(ins, r)
    ensures var l, l' := LoadBelow(s, ins, start, n, u), LoadBelow(WriteReg(s, r, v), ins, start, n, u);
      l'.word == l.word && l'.state == WriteReg(l.state, r, v)
  {
    hide GetBit, Home, ReadReg, WriteReg, M.ReadWord;
    if n > 0 {
      LoadBelowAfterWrite(s, ins, start, n - 1, u, r, v);
      if Listed(ins, n - 1) {
        var l := LoadBelow(s, ins, start, n - 1, u);
        var word := LoadWord(l.state, Home(start, ins, n - 1), Uninit(u.buffer, l.word));
        WritesCommute(l.state, r, v, n - 1, word);
      }
    }
  }

  lemma {:induction false} PopEachLoads(s: State, ins: word, n: nat, u: Uninit)
    requires n <= 15 && Rn(ins) != 15 && !Listed(ins, Rn(ins))
    requires forall i: nat :: i < n && Listed(ins, i) ==> Home(ReadReg(s, Rn(ins)), ins, i) + 4 <= |s.mem|
    ensures var start := ReadReg(s, Rn(ins));
      PopEach(s, ins, n, u) == WriteReg(LoadBelow(s, ins, start, n, u).state, Rn(ins), Plus(start, 4 * Count(ins, n)))
  {
    hide GetBit, M.Word, ReadReg, Dispatch, LdrPost, WriteReg, LoadWord, Wrap;
    var rn := Rn(ins);
    var start := ReadReg(s, rn);
    if n == 0 {
      RewriteSame(s, rn);
      assert Plus(start, 0) == start by { WrapWord(start); }
    } else {
      PopEachLoads(s, ins, n - 1, u);
      if Listed(ins, n - 1) {
        var l := LoadBelow(s, ins, start, n - 1, u);
        var a := Home(start, ins, n - 1);
        var t := WriteReg(l.state, rn, a);
        ReadAfterWrite(l.state, rn, a, rn);
        Pop(t, rn, n - 1, u);
        LoadInRange(l.state, a, Uninit(u.buffer, l.word));
        WriteTwice(l.state, rn, a, Plus(a, 4));
        WritesCommute(l.state, rn, Plus(a, 4), n - 1, WordAt(l.state, a));
        WrapSum(start + 4 * Count(ins, n - 1), 4);
      }
    }
  }

  /** LDMIA Rn!, list leaves the state that LDR Rk, [Rn], #4 leaves when it is executed for each
      listed register from the lowest to the highest, for any list without Rn and R15 whose words are
      in memory. */
  lemma LoadMultipleIsPops(s: State, ins: word, u: Uninit)
    requires InsType(ins) == 4 && !BitB(ins) && BitL(ins) && !BitP(ins) && BitU(ins) && BitW(ins)
    requires Rn(ins) != 15 && !Listed(ins, Rn(ins)) && !Listed(ins, 15)
    requires forall i: nat :: i < 15 && Listed(ins, i) ==> Home(ReadReg(s, Rn(ins)), ins, i) + 4 <= |s.mem|
    ensures Dispatch(s, ins, u) == Outcome(PopEach(s, ins, 16, u), 0)
  {
    hide InsType, BitB, BitL, BitP, BitU, BitW, PopEach, GetBit, Home, ReadReg, WriteReg, LoadBelow;
    var start := ReadReg(s, Rn(ins));
    PopEachLoads(s, ins, 15, u);
    LoadBelowAfterWrite(s, ins, start, 15, u, Rn(ins), Plus(start, 4 * Count(ins, 16)));
    assert Count(ins, 16) == Count(ins, 15) by { CountTop(ins); }
    PopsNoPc(s, ins, u);
  }

  lemma PopsNoPc(s: State, ins: word, u: Uninit)
    requires !Listed(ins, 15)
    ensures PopEach(s, ins, 16, u) == PopEach(s, ins, 15, u)
  {
    hide Dispatch, GetBit;
  }

  lemma CountTop(ins: word)
    requires !Listed(ins, 15)
    ensures Count(ins, 16) == Count(ins, 15)
  {
    hide GetBit;
  }
}
