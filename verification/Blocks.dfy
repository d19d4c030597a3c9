/**
 * Basic blocks as values: the words decode_block reads, their shape, and where memory
 * holds them.
 */
module Blocks {
  import opened Words
  import opened Machines
  import opened Instructions
  import opened Switch

  // ----- decode_block -----

  datatype Scanned = Complete(words: seq<Word>) | Fault | Unfinished

  predicate BranchWord(w: Word) {
    Decode(w).Some? && IsBranch(Decode(w).value)
  }

  predicate PlainWord(w: Word) {
    Decode(w).Some? && !IsBranch(Decode(w).value)
  }

  function Prepend(w: Word, s: Scanned): Scanned {
    match s case Complete(ws) => Complete([w] + ws) case _ => s
  }

  /** The dispatch chain: on through plain words, past the branches, and one plain word more. */
  function Scan(mem: Mem, pc: Word, branched: bool, fuel: nat): Scanned
    decreases fuel
  {
    if fuel == 0 then Unfinished else
    match Fetch(mem, pc)
    case None => Fault
    case Some(w) =>
      if PlainWord(w) && branched then Complete([w])
      else if !PlainWord(w) && !BranchWord(w) then Fault
      else Prepend(w, Scan(mem, Plus(pc, 4), branched || BranchWord(w), fuel - 1))
  }

  /** The words lie one after the other from pc on. */
  ghost predicate CodeAt(mem: Mem, pc: Word, ws: seq<Word>) {
    forall i | 0 <= i < |ws| :: Fetch(mem, Plus(pc, 4 * i)) == Some(ws[i])
  }

  /** Plain words, then branches, then one plain word. */
  ghost predicate BlockShape(ws: seq<Word>, branched: bool) {
    && |ws| >= 1 && PlainWord(ws[|ws| - 1])
    && (forall i | 0 <= i < |ws| - 1 :: PlainWord(ws[i]) || BranchWord(ws[i]))
    && (branched ==> forall i | 0 <= i < |ws| - 1 :: BranchWord(ws[i]))
    && (forall i, j | 0 <= i < j < |ws| - 1 :: BranchWord(ws[i]) ==> BranchWord(ws[j]))
    && (!branched ==> |ws| >= 2 && BranchWord(ws[|ws| - 2]))
  }

  lemma NotBoth(w: Word)
    ensures !(PlainWord(w) && BranchWord(w))
  {}

  lemma ShapePrepend(w: Word, ws: seq<Word>, branched: bool)
    requires PlainWord(w) || BranchWord(w)
    requires PlainWord(w) ==> !branched
    requires BlockShape(ws, branched || BranchWord(w))
    ensures BlockShape([w] + ws, branched)
  {
    hide PlainWord, BranchWord;
    var xs := [w] + ws;
    assert forall i | 1 <= i < |xs| :: xs[i] == ws[i - 1];
    assert BranchWord(w) ==> !PlainWord(w) by { NotBoth(w); }
  }

  /** A complete scan has the shape of a block and holds exactly the words of memory. */
  lemma {:induction false} ScanShape(mem: Mem, pc: Word, branched: bool, fuel: nat)
    requires Scan(mem, pc, branched, fuel).Complete?
    ensures BlockShape(Scan(mem, pc, branched, fuel).words, branched)
    decreases fuel
  {
    hide Fetch, Decode, IsBranch;
    var w := Fetch(mem, pc).value;
    if PlainWord(w) && branched {
    } else {
      ScanShape(mem, Plus(pc, 4), branched || BranchWord(w), fuel - 1);
      ShapePrepend(w, Scan(mem, Plus(pc, 4), branched || BranchWord(w), fuel - 1).words, branched);
    }
  }

  lemma PlusZero(pc: Word)
    ensures Plus(pc, 0) == pc
  {}

  lemma CodePrepend(mem: Mem, pc: Word, w: Word, ws: seq<Word>)
    requires Fetch(mem, pc) == Some(w) && CodeAt(mem, Plus(pc, 4), ws)
    ensures CodeAt(mem, pc, [w] + ws)
  {
    hide Fetch, Plus;
    PlusZero(pc);
    forall i | 1 <= i < |ws| + 1
      ensures Fetch(mem, Plus(pc, 4 * i)) == Some(ws[i - 1])
    {
      PlusPlus(pc, 4, 4 * (i - 1));
      assert Plus(Plus(pc, 4), 4 * (i - 1)) == Plus(pc, 4 * i);
    }
  }

  lemma {:induction false} ScanAt(mem: Mem, pc: Word, branched: bool, fuel: nat)
    requires Scan(mem, pc, branched, fuel).Complete?
    ensures CodeAt(mem, pc, Scan(mem, pc, branched, fuel).words)
    decreases fuel
  {
    hide Fetch, PlainWord, BranchWord, Plus;
    var w := Fetch(mem, pc).value;
    PlusZero(pc);
    if PlainWord(w) && branched {
    } else {
      var ws := Scan(mem, Plus(pc, 4), branched || BranchWord(w), fuel - 1).words;
      ScanAt(mem, Plus(pc, 4), branched || BranchWord(w), fuel - 1);
      CodePrepend(mem, pc, w, ws);
    }
  }

  lemma CodeTail(code: Mem, pc: Word, ws: seq<Word>)
    requires |ws| > 0 && CodeAt(code, pc, ws)
    ensures CodeAt(code, Plus(pc, 4), ws[1..])
  {
    hide Fetch, Plus;
    forall i | 0 <= i < |ws| - 1
      ensures Fetch(code, Plus(Plus(pc, 4), 4 * i)) == Some(ws[1..][i])
    {
      PlusPlus(pc, 4, 4 * i);
      assert Fetch(code, Plus(pc, 4 * (i + 1))) == Some(ws[i + 1]);
    }
  }

  lemma ShapeTail(ws: seq<Word>, branched: bool)
    requires BlockShape(ws, branched) && |ws| > 1
    ensures PlainWord(ws[0]) || BranchWord(ws[0])
    ensures PlainWord(ws[0]) ==> !branched
    ensures BlockShape(ws[1..], branched || BranchWord(ws[0]))
  {
    hide PlainWord, BranchWord;
    NotBoth(ws[0]);
    var t := ws[1..];
    assert forall i | 0 <= i < |t| :: t[i] == ws[i + 1];
  }

  /** Wherever words of the shape of a block lie, the scan finds them. */
  lemma {:induction false} ScanFinds(mem: Mem, pc: Word, ws: seq<Word>, branched: bool)
    requires BlockShape(ws, branched) && CodeAt(mem, pc, ws)
    ensures Scan(mem, pc, branched, |ws|) == Complete(ws)
    decreases |ws|
  {
    hide Fetch, Decode, PlainWord, BranchWord, Plus;
    PlusZero(pc);
    assert Fetch(mem, Plus(pc, 4 * 0)) == Some(ws[0]);
    NotBoth(ws[0]);
    if |ws| == 1 {
      assert ws == [ws[0]];
    } else {
      ShapeTail(ws, branched);
      CodeTail(mem, pc, ws);
      ScanFinds(mem, Plus(pc, 4), ws[1..], branched || BranchWord(ws[0]));
      assert ws == [ws[0]] + ws[1..];
    }
  }

  /** More fuel does not change a finished scan. */
  lemma {:induction false} ScanMore(mem: Mem, pc: Word, branched: bool, a: nat, b: nat)
    requires a <= b && !Scan(mem, pc, branched, a).Unfinished?
    ensures Scan(mem, pc, branched, b) == Scan(mem, pc, branched, a)
    decreases a
  {
    hide Fetch, PlainWord, BranchWord, Plus;
    match Fetch(mem, pc)
    case None =>
    case Some(w) =>
      if !(PlainWord(w) && branched) && (PlainWord(w) || BranchWord(w)) {
        ScanMore(mem, Plus(pc, 4), branched || BranchWord(w), a - 1, b - 1);
      }
  }

  /** The code image is part of memory. */
  ghost predicate Within(code: Mem, mem: Mem) {
    forall a | a in code :: a in mem && mem[a] == code[a]
  }

  lemma FetchWithin(code: Mem, mem: Mem, pc: Word)
    requires Within(code, mem) && Fetch(code, pc).Some?
    ensures Fetch(mem, pc) == Fetch(code, pc)
  {}

  /** Decoding from memory gives what the code image gives. */
  lemma {:induction false} ScanWithin(code: Mem, mem: Mem, pc: Word, branched: bool, fuel: nat)
    requires Within(code, mem) && Scan(code, pc, branched, fuel).Complete?
    ensures Scan(mem, pc, branched, fuel) == Scan(code, pc, branched, fuel)
    decreases fuel
  {
    hide Fetch, Within, PlainWord, BranchWord, Plus;
    FetchWithin(code, mem, pc);
    var w := Fetch(code, pc).value;
    if PlainWord(w) && branched {
    } else {
      ScanWithin(code, mem, Plus(pc, 4), branched || BranchWord(w), fuel - 1);
    }
  }
}
