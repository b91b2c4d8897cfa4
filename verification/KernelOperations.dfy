/** What a kernel's operations do to the arrays they name, and when a launch stays inside the sets inferred for it. */
module KernelOperations {
  import opened Effects
  import opened Options
  import opened ReadWriteSets

  // ---- the operations' meaning --------------------------------------------

  /** Values the operations hand on to each other under names of their own. */
  type Locals = map<string, seq<Value>>

  /** The contents of the arrays an operation names. */
  type Contents = map<string, Memory>

  datatype Outcome = Outcome(locals: Locals, stored: Memory)

  /** What operations compute from their fields, the values so far and what they find in arrays; nothing is known
      about it. */
  datatype Functions = Functions(f: (seq<(string, Field)>, Locals, Contents) -> Outcome)
  {
    function Apply(fields: seq<(string, Field)>, locals: Locals, found: Contents): Outcome { f(fields, locals, found) }
  }

  /** The array a parameter is bound to. */
  function Bound(n: Node, name: string): Option<Owner> {
    if name in n.params && IndexOf(n.params, name) < |n.arrays| then Some(OwnerOf(n.arrays[IndexOf(n.params, name)])) else None
  }

  function NamesIn(f: Field): set<string> {
    match f
    case Text(e) => e.names
    case Items(items) => set e, s | e in items && s in e.names :: s
    case Other => {}
  }

  /** The names an operation mentions anywhere: the tensor it loads, operands, expressions, indices. */
  ghost function Mentioned(fields: seq<(string, Field)>): set<string> {
    set j, s | 0 <= j < |fields| && s in NamesIn(fields[j].1) :: s
  }

  ghost function ContentsOf(o: Owner, m: Memory): Memory {
    map c | c in m && Owns(o, c) :: m[c]
  }

  /** An operation looks at the arrays whose names it mentions. */
  ghost function Found(n: Node, fields: seq<(string, Field)>, m: Memory): Contents {
    map s | s in Mentioned(fields) && Bound(n, s).Some? :: ContentsOf(Bound(n, s).value, m)
  }

  /** A store changes the array it names as its tensor; nothing else changes memory. */
  ghost function Target(n: Node, op: KernelOp): Option<Owner> {
    if op.Dict? && Get(op.fields, "op").Text? && Get(op.fields, "op").e.text == "store" && Get(op.fields, "tensor").Text?
    then Bound(n, Get(op.fields, "tensor").e.text) else None
  }

  ghost function Stored(o: Owner, values: Memory, m: Memory): Memory {
    map c | c in m :: if Owns(o, c) && c in values then values[c] else m[c]
  }

  datatype State = State(locals: Locals, mem: Memory)

  ghost function RunOp(f: Functions, n: Node, op: KernelOp, s: State): State {
    match op
    case NotADict => s
    case Dict(fields) =>
      var r := f.Apply(fields, s.locals, Found(n, fields, s.mem));
      State(r.locals, if Target(n, op).Some? then Stored(Target(n, op).value, r.stored, s.mem) else s.mem)
  }

  /** The first k operations, in order. */
  ghost function RunOps(f: Functions, n: Node, k: nat, m: Memory): State
    requires k <= |n.ops|
  {
    if k == 0 then State(map[], m) else RunOp(f, n, n.ops[k - 1], RunOps(f, n, k - 1, m))
  }

  /** The node's launch does what its operations say. */
  ghost predicate DoesItsOperations(n: Node) {
    exists f: Functions :: Runs(n, f)
  }

  ghost predicate Runs(n: Node, f: Functions) {
    forall m :: n.launch(m) == RunOps(f, n, |n.ops|, m).mem
  }

  /** Fields are as the parser leaves them. */
  ghost predicate Parsed(n: Node) {
    forall i, j :: 0 <= i < |n.ops| && n.ops[i].Dict? && 0 <= j < |n.ops[i].fields| ==>
      FieldParsed(n.params, n.ops[i].fields[j].1)
  }

  ghost predicate FieldParsed(params: seq<string>, f: Field) {
    match f
    case Text(e) => e.Parsed(params)
    case Items(items) => forall e :: e in items ==> e.Parsed(params)
    case Other => true
  }

  // ---- confinement --------------------------------------------------------

  ghost function ReadSet(n: Node): set<Owner> { BoundOwners(n, ReadNames(n)) }
  ghost function WriteSet(n: Node): set<Owner> { BoundOwners(n, WriteNames(n)) }

  ghost predicate InSets(n: Node, c: Cell) {
    InArea(ReadSet(n), c) || InArea(WriteSet(n), c)
  }

  /** Operation i looks at a cell that is in neither set. */
  ghost predicate Misses(n: Node, i: nat, c: Cell)
    requires i < |n.ops|
  {
    n.ops[i].Dict? && exists s :: s in Mentioned(n.ops[i].fields) && Bound(n, s).Some? && Owns(Bound(n, s).value, c)
                                  && !InSets(n, c)
  }

  /** Operation j can change a cell. */
  ghost predicate Changes(n: Node, j: nat)
    requires j < |n.ops|
  {
    Target(n, n.ops[j]).Some? && exists d :: Owns(Target(n, n.ops[j]).value, d)
  }

  /** From operation k on, some operation can change a cell. */
  ghost predicate ChangesFrom(n: Node, k: nat) {
    exists j :: k <= j < |n.ops| && Changes(n, j)
  }

  /** A missed cell whose contents can get into memory. */
  ghost predicate Leaks(n: Node) {
    exists i, c :: 0 <= i < |n.ops| && Misses(n, i, c) && ChangesFrom(n, i)
  }

  lemma TargetIsWritten(n: Node, j: nat)
    requires j < |n.ops| && Target(n, n.ops[j]).Some?
    ensures Target(n, n.ops[j]).value in WriteSet(n)
  {
    var name := Get(n.ops[j].fields, "tensor").e.text;
    assert WritesIn(n.ops[j].fields, name);
    assert Writes(n, name) && name in WriteNames(n);
  }

  /** Two memories that cannot be told apart inside the sets. */
  ghost predicate Alike(n: Node, m: Memory, m': Memory) {
    m.Keys == m'.Keys && forall c :: c in m && InSets(n, c) ==> m[c] == m'[c]
  }

  ghost predicate Unchanged(n: Node, before: Memory, after: Memory) {
    after.Keys == before.Keys && forall c :: c in before && !InArea(WriteSet(n), c) ==> after[c] == before[c]
  }

  lemma SameFound(n: Node, k: nat, m: Memory, m': Memory)
    requires k < |n.ops| && n.ops[k].Dict? && Alike(n, m, m') && forall c :: !Misses(n, k, c)
    ensures Found(n, n.ops[k].fields, m) == Found(n, n.ops[k].fields, m')
  {
    var fields := n.ops[k].fields;
    forall s | s in Mentioned(fields) && Bound(n, s).Some?
      ensures ContentsOf(Bound(n, s).value, m) == ContentsOf(Bound(n, s).value, m') {
      var o := Bound(n, s).value;
      forall c | c in m && Owns(o, c) ensures m[c] == m'[c] {
        assert !Misses(n, k, c);
      }
    }
  }

  lemma StoresInside(n: Node, k: nat, values: Memory, before: Memory, m: Memory)
    requires k < |n.ops| && Target(n, n.ops[k]).Some? && Unchanged(n, before, m)
    ensures Unchanged(n, before, Stored(Target(n, n.ops[k]).value, values, m))
  {
    TargetIsWritten(n, k);
  }

  lemma {:induction false} OnlyTargetsChange(f: Functions, n: Node, k: nat, m: Memory)
    requires k <= |n.ops|
    ensures Unchanged(n, m, RunOps(f, n, k, m).mem)
  {
    if k > 0 {
      OnlyTargetsChange(f, n, k - 1, m);
      hide Target, Unchanged, Stored, Found;
      if Target(n, n.ops[k - 1]).Some? && n.ops[k - 1].Dict? {
        var s := RunOps(f, n, k - 1, m);
        StoresInside(n, k - 1, f.Apply(n.ops[k - 1].fields, s.locals, Found(n, n.ops[k - 1].fields, s.mem)).stored, m, s.mem);
      }
    }
  }

  lemma NothingToChange(o: Owner, values: Memory, m: Memory)
    requires forall d :: !Owns(o, d)
    ensures Stored(o, values, m) == m
  {
  }

  /** As long as a change is still to come, runs from memories alike stay alike, values and all; after it, memories do. */
  lemma {:induction false} RunsAlike(f: Functions, n: Node, k: nat, m: Memory, m': Memory)
    requires k <= |n.ops| && Alike(n, m, m') && !Leaks(n)
    ensures Alike(n, RunOps(f, n, k, m).mem, RunOps(f, n, k, m').mem)
    ensures ChangesFrom(n, k) ==> RunOps(f, n, k, m).locals == RunOps(f, n, k, m').locals
  {
    if k > 0 {
      RunsAlike(f, n, k - 1, m, m');
      var s, s' := RunOps(f, n, k - 1, m), RunOps(f, n, k - 1, m');
      var op := n.ops[k - 1];
      hide RunOps, Leaks, Found, Target, InSets, Misses;
      if op.Dict? {
        if ChangesFrom(n, k - 1) {
          NoLeak(n, k - 1);
          SameFound(n, k - 1, s.mem, s'.mem);
        } else if Target(n, op).Some? {
          assert !Changes(n, k - 1);
          var fields := op.fields;
          NothingToChange(Target(n, op).value, f.Apply(fields, s.locals, Found(n, fields, s.mem)).stored, s.mem);
          NothingToChange(Target(n, op).value, f.Apply(fields, s'.locals, Found(n, fields, s'.mem)).stored, s'.mem);
        }
      }
      LastOp(f, n, k, m);
      LastOp(f, n, k, m');
      assert ChangesFrom(n, k) ==> ChangesFrom(n, k - 1);
    }
  }

  lemma LastOp(f: Functions, n: Node, k: nat, m: Memory)
    requires 0 < k <= |n.ops|
    ensures RunOps(f, n, k, m) == RunOp(f, n, n.ops[k - 1], RunOps(f, n, k - 1, m))
  {
  }

  lemma NoLeak(n: Node, i: nat)
    requires i < |n.ops| && !Leaks(n) && ChangesFrom(n, i)
    ensures forall c :: !Misses(n, i, c)
  {
  }

  /** A launch that does its operations, none of which leaks, stays inside the inferred sets. */
  lemma StaysInSets(n: Node)
    requires DoesItsOperations(n) && !Leaks(n)
    ensures StaysInside(n.launch, ReadSet(n), WriteSet(n))
  {
    var f :| Runs(n, f);
    forall m ensures LeavesOthers(n.launch, m, WriteSet(n)) {
      OnlyTargetsChange(f, n, |n.ops|, m);
    }
    forall m, m' ensures DependsOnSets(n.launch, m, m', ReadSet(n), WriteSet(n)) {
      if Alike(n, m, m') {
        RunsAlike(f, n, |n.ops|, m, m');
      }
    }
  }

  // ---- and only then ------------------------------------------------------

  /** Every launch that does these operations stays inside the sets, whatever the operations compute. */
  ghost predicate AlwaysInside(n: Node) {
    forall launch: Launch :: DoesItsOperations(n.(launch := launch)) ==> StaysInside(launch, ReadSet(n), WriteSet(n))
  }

  /** Remembers what is in cell c of a named array, and stores it to cell d. */
  ghost function Carry(s: string, c: Cell, d: Cell): Functions {
    Functions((fields: seq<(string, Field)>, locals: Locals, found: Contents) => Carried(s, c, d, locals, found))
  }

  ghost function Carried(s: string, c: Cell, d: Cell, locals: Locals, found: Contents): Outcome {
    var x := if s in found && c in found[s] then [found[s][c]] else if "x" in locals then locals["x"] else [];
    Outcome(map["x" := x], if x == [] then map[] else map[d := x[0]])
  }

  ghost function Start(c: Cell, d: Cell, v: Value): Memory { map[d := 0][c := v] }

  /** What is carried once operation i has found cell c, and where it is once operation j has stored it. */
  ghost predicate Carries(c: Cell, d: Cell, v: Value, found: bool, stored: bool, s: State) {
    && s.mem.Keys == {c, d} && s.mem[c] == v && (s.mem[d] == 0 || s.mem[d] == v)
    && ("x" in s.locals ==> s.locals["x"] == [] || s.locals["x"] == [v])
    && (found ==> "x" in s.locals && s.locals["x"] == [v])
    && (stored ==> s.mem[d] == v)
  }

  lemma {:induction false} CarryRuns(n: Node, s: string, c: Cell, d: Cell, v: Value, i: nat, j: nat, k: nat)
    requires i <= j < |n.ops| && k <= |n.ops| && c != d
    requires n.ops[i].Dict? && s in Mentioned(n.ops[i].fields) && Bound(n, s).Some? && Owns(Bound(n, s).value, c)
    requires Target(n, n.ops[j]).Some? && Owns(Target(n, n.ops[j]).value, d)
    ensures Carries(c, d, v, k > i, k > j, RunOps(Carry(s, c, d), n, k, Start(c, d, v)))
  {
    if k > 0 {
      CarryRuns(n, s, c, d, v, i, j, k - 1);
      var st := RunOps(Carry(s, c, d), n, k - 1, Start(c, d, v));
      CarryOne(n, s, c, d, v, k - 1, i < k - 1, j < k - 1, st);
    }
  }

  lemma CarryOne(n: Node, s: string, c: Cell, d: Cell, v: Value, k: nat, found: bool, stored: bool, st: State)
    requires k < |n.ops| && c != d && Carries(c, d, v, found, stored, st)
    requires Bound(n, s).Some? && Owns(Bound(n, s).value, c)
    ensures var looks := n.ops[k].Dict? && s in Mentioned(n.ops[k].fields);
            var t := Target(n, n.ops[k]);
            Carries(c, d, v, found || looks, stored || ((found || looks) && t.Some? && Owns(t.value, d)),
                    RunOp(Carry(s, c, d), n, n.ops[k], st))
  {
    hide Bound, Mentioned, Owns, Get;
    if n.ops[k].Dict? {
      var fields := n.ops[k].fields;
      var f := Found(n, fields, st.mem);
      if s in f && c in f[s] {
        assert f[s][c] == v;
      }
      var r := Carried(s, c, d, st.locals, f);
      assert Carry(s, c, d).Apply(fields, st.locals, f) == r;
    }
  }

  ghost function Carrying(n: Node, s: string, c: Cell, d: Cell): Launch {
    (m: Memory) => RunOps(Carry(s, c, d), n, |n.ops|, m).mem
  }

  lemma LeakIsOutside(n: Node, i: nat, c: Cell, j: nat)
    requires i <= j < |n.ops| && Misses(n, i, c) && Changes(n, j)
    ensures !AlwaysInside(n)
  {
    var s :| s in Mentioned(n.ops[i].fields) && Bound(n, s).Some? && Owns(Bound(n, s).value, c) && !InSets(n, c);
    var d :| Owns(Target(n, n.ops[j]).value, d);
    TargetIsWritten(n, j);
    assert InArea(WriteSet(n), d);
    CarryingDoes(n, s, c, d);
    CarryRuns(n, s, c, d, 0, i, j, |n.ops|);
    CarryRuns(n, s, c, d, 1, i, j, |n.ops|);
    CarriedOut(n, s, c, d);
    hide Carrying, StaysInside, DoesItsOperations;
    var launch := Carrying(n, s, c, d);
    assert DoesItsOperations(n.(launch := launch)) && !StaysInside(launch, ReadSet(n), WriteSet(n));
  }

  /** What is carried to d depends on c, which is in neither set. */
  lemma CarriedOut(n: Node, s: string, c: Cell, d: Cell)
    requires !InSets(n, c) && InArea(WriteSet(n), d) && c != d
    requires forall v :: v == 0 || v == 1 ==>
               Carries(c, d, v, true, true, RunOps(Carry(s, c, d), n, |n.ops|, Start(c, d, v)))
    ensures !StaysInside(Carrying(n, s, c, d), ReadSet(n), WriteSet(n))
  {
    hide RunOps, InArea, ReadSet, WriteSet;
    var f := Carrying(n, s, c, d);
    var m0, m1 := Start(c, d, 0), Start(c, d, 1);
    assert f(m0).Keys == {c, d} && f(m0)[d] == 0 && f(m1)[d] == 1;
    assert !DependsOnSets(f, m0, m1, ReadSet(n), WriteSet(n));
  }

  lemma CarryingDoes(n: Node, s: string, c: Cell, d: Cell)
    ensures DoesItsOperations(n.(launch := Carrying(n, s, c, d)))
  {
    SameRuns(n, Carry(s, c, d), Carrying(n, s, c, d));
    assert Runs(n.(launch := Carrying(n, s, c, d)), Carry(s, c, d));
  }

  /** What the operations do is no matter of the launch they are recorded with. */
  lemma SameRuns(n: Node, f: Functions, launch: Launch)
    ensures forall m :: RunOps(f, n.(launch := launch), |n.ops|, m) == RunOps(f, n, |n.ops|, m)
  {
    forall m ensures RunOps(f, n.(launch := launch), |n.ops|, m) == RunOps(f, n, |n.ops|, m) {
      SameRun(f, n, launch, |n.ops|, m);
    }
  }

  lemma {:induction false} SameRun(f: Functions, n: Node, launch: Launch, k: nat, m: Memory)
    requires k <= |n.ops|
    ensures RunOps(f, n.(launch := launch), k, m) == RunOps(f, n, k, m)
  {
    if k > 0 {
      SameRun(f, n, launch, k - 1, m);
      hide RunOps;
      var o, op, st := n.(launch := launch), n.ops[k - 1], RunOps(f, n, k - 1, m);
      assert forall s :: Bound(o, s) == Bound(n, s);
      assert Target(o, op) == Target(n, op);
      if op.Dict? {
        assert Found(o, op.fields, st.mem) == Found(n, op.fields, st.mem);
      }
      LastOp(f, n, k, m);
      LastOp(f, o, k, m);
    }
  }

  lemma SameSetsFor(n: Node, launch: Launch)
    ensures var o := n.(launch := launch);
            ReadSet(o) == ReadSet(n) && WriteSet(o) == WriteSet(n) && (Leaks(o) <==> Leaks(n))
  {
    var o := n.(launch := launch);
    assert ReadNames(o) == ReadNames(n) by {
      forall s ensures Reads(o, s) == Reads(n, s) {}
    }
    assert WriteNames(o) == WriteNames(n) by {
      forall s ensures Writes(o, s) == Writes(n, s) {}
    }
    assert BoundOwners(o, ReadNames(n)) == BoundOwners(n, ReadNames(n));
    assert BoundOwners(o, WriteNames(n)) == BoundOwners(n, WriteNames(n));
    assert forall s :: Bound(o, s) == Bound(n, s);
    forall i, c | 0 <= i < |n.ops| ensures Misses(o, i, c) == Misses(n, i, c) {
    }
    forall j | 0 <= j < |n.ops| ensures Changes(o, j) == Changes(n, j) {
      assert Target(o, n.ops[j]) == Target(n, n.ops[j]);
    }
    forall k: nat ensures ChangesFrom(o, k) == ChangesFrom(n, k) {
    }
  }

  /** Launches stay inside the inferred sets, whatever their operations compute, exactly when no array that an operation
      mentions is left out of both while something is still to be stored. */
  lemma InferenceIsSoundIff(n: Node)
    ensures AlwaysInside(n) <==> !Leaks(n)
  {
    if Leaks(n) {
      var i, c :| 0 <= i < |n.ops| && Misses(n, i, c) && ChangesFrom(n, i);
      var j :| i <= j < |n.ops| && Changes(n, j);
      LeakIsOutside(n, i, c, j);
    } else {
      forall launch: Launch | DoesItsOperations(n.(launch := launch))
        ensures StaysInside(launch, ReadSet(n), WriteSet(n)) {
        SameSetsFor(n, launch);
        StaysInSets(n.(launch := launch));
      }
    }
  }

  // ---- what the sets hold --------------------------------------------------

  /** The write set holds exactly the arrays that stores name. */
  lemma WriteSetIsTargets(n: Node, o: Owner)
    ensures o in WriteSet(n) <==> exists j :: 0 <= j < |n.ops| && Target(n, n.ops[j]) == Some(o)
  {
    if o in WriteSet(n) {
      BoundTo(n, WriteNames(n), o);
      var s :| s in WriteNames(n) && Bound(n, s) == Some(o);
      var j :| 0 <= j < |n.ops| && n.ops[j].Dict? && WritesIn(n.ops[j].fields, s);
      assert Target(n, n.ops[j]) == Some(o);
    }
    if j :| 0 <= j < |n.ops| && Target(n, n.ops[j]) == Some(o) {
      TargetIsWritten(n, j);
    }
  }

  /** A field says that the array is read: it mentions it, in an index by its bare name, and is not just the tensor of a
      store. */
  ghost predicate SaysRead(n: Node, fields: seq<(string, Field)>, f: Field, o: Owner) {
    exists s :: s in NamesIn(f) && Bound(n, s) == Some(o)
                && (f.Text? && s == f.e.text ==> !IsStoreTarget(fields, f))
                && (f.Items? ==> exists e :: e in f.items && e.text == s)
  }

  /** The read set holds exactly the arrays that fields say are read. */
  lemma ReadSetIsMentioned(n: Node, o: Owner)
    requires Parsed(n)
    ensures o in ReadSet(n) <==>
              exists i, j :: 0 <= i < |n.ops| && n.ops[i].Dict? && 0 <= j < |n.ops[i].fields|
                             && SaysRead(n, n.ops[i].fields, n.ops[i].fields[j].1, o)
  {
    if o in ReadSet(n) {
      BoundTo(n, ReadNames(n), o);
      var s :| s in ReadNames(n) && s in n.params && Bound(n, s) == Some(o);
      var i, j :| 0 <= i < |n.ops| && n.ops[i].Dict? && 0 <= j < |n.ops[i].fields|
                  && s in FieldReads(n.params, n.ops[i].fields, n.ops[i].fields[j].1);
      assert FieldParsed(n.params, n.ops[i].fields[j].1);
      assert SaysRead(n, n.ops[i].fields, n.ops[i].fields[j].1, o);
    }
    if i, j :| 0 <= i < |n.ops| && n.ops[i].Dict? && 0 <= j < |n.ops[i].fields|
               && SaysRead(n, n.ops[i].fields, n.ops[i].fields[j].1, o) {
      var f := n.ops[i].fields[j].1;
      assert FieldParsed(n.params, f);
      var s :| s in NamesIn(f) && Bound(n, s) == Some(o)
               && (f.Text? && s == f.e.text ==> !IsStoreTarget(n.ops[i].fields, f))
               && (f.Items? ==> exists e :: e in f.items && e.text == s);
      assert s in FieldReads(n.params, n.ops[i].fields, f);
      assert Reads(n, s) && s in ReadNames(n);
    }
  }

  // ---- which operations leak ----------------------------------------------

  /** Indices that are expressions mention no array. */
  ghost predicate PlainIndices(n: Node) {
    forall i, j :: 0 <= i < |n.ops| && n.ops[i].Dict? && 0 <= j < |n.ops[i].fields| ==> PlainItems(n, n.ops[i].fields[j].1)
  }

  ghost predicate PlainItems(n: Node, f: Field) {
    f.Items? ==> forall e, s :: e in f.items && s in e.names && Bound(n, s).Some? ==> e.text in n.params
  }

  /** What a field mentions is read, but for the target of a store, and for names inside an index. */
  lemma MentionedIsInSets(n: Node, i: nat, j: nat, s: string)
    requires Parsed(n) && i < |n.ops| && n.ops[i].Dict? && j < |n.ops[i].fields|
    requires s in NamesIn(n.ops[i].fields[j].1) && Bound(n, s).Some? && PlainItems(n, n.ops[i].fields[j].1)
    ensures Bound(n, s).value in ReadSet(n) || Bound(n, s).value in WriteSet(n)
  {
    var fields := n.ops[i].fields;
    var f := fields[j].1;
    assert FieldParsed(n.params, f);
    if s in FieldReads(n.params, fields, f) {
      assert Reads(n, s) && s in ReadNames(n);
    } else {
      assert f.Text? && f.e.text in n.params && IsStoreTarget(fields, f) && WritesIn(fields, s);
      assert Writes(n, s) && s in WriteNames(n);
    }
  }

  /** With plain indices nothing leaks. */
  lemma PlainIndicesDoNotLeak(n: Node)
    requires Parsed(n) && PlainIndices(n)
    ensures !Leaks(n)
  {
    forall i, c | 0 <= i < |n.ops| ensures !Misses(n, i, c) {
      if Misses(n, i, c) {
        var fields := n.ops[i].fields;
        var s :| s in Mentioned(fields) && Bound(n, s).Some? && Owns(Bound(n, s).value, c) && !InSets(n, c);
        var j :| 0 <= j < |fields| && s in NamesIn(fields[j].1);
        MentionedIsInSets(n, i, j, s);
      }
    }
  }

  // Load A at B[0], then store to C.
  const LOAD := [("op", Text(Expr("load", {"load"}))), ("tensor", Text(Expr("A", {"A"}))),
                 ("indices", Items([Expr("B[0]", {"B"})]))]
  const STORE := [("op", Text(Expr("store", {"store"}))), ("tensor", Text(Expr("C", {"C"})))]
  const ARRAYS := [Base(ObjectOwner(0)), Base(ObjectOwner(1)), Base(ObjectOwner(2))]

  function Gather(): Node { Node(["A", "B", "C"], [Dict(LOAD), Dict(STORE)], ARRAYS, (m: Memory) => m) }

  /** An index that is an expression does leak: the read of B is not inferred. */
  lemma IndexReadIsMissed()
    ensures Parsed(Gather()) && !AlwaysInside(Gather())
  {
    GatherBinds();
    GatherMisses();
    GatherChanges();
    hide Misses, Changes, AlwaysInside;
    LeakIsOutside(Gather(), 0, ObjectCell(1, 0), 1);
  }

  lemma GatherMisses()
    ensures Misses(Gather(), 0, ObjectCell(1, 0))
  {
    GatherBinds();
    GatherSets();
    hide InSets, Bound;
    assert "B" in NamesIn(LOAD[2].1) && "B" in Mentioned(LOAD);
    assert Owns(Bound(Gather(), "B").value, ObjectCell(1, 0));
  }

  lemma GatherChanges()
    ensures Changes(Gather(), 1)
  {
    GatherBinds();
    hide Bound;
    assert Get(STORE, "tensor") == STORE[1].1 && Get(STORE, "op") == STORE[0].1;
    assert Target(Gather(), Gather().ops[1]) == Some(ObjectOwner(2)) && Owns(ObjectOwner(2), ObjectCell(2, 0));
  }

  lemma GatherBinds()
    ensures var n := Gather();
            && Parsed(n) && Bound(n, "A") == Some(ObjectOwner(0)) && Bound(n, "B") == Some(ObjectOwner(1))
            && Bound(n, "C") == Some(ObjectOwner(2))
  {
    var n := Gather();
    assert IndexOf(n.params, "C") == 2;
    assert IndexOf(n.params, "B") == 1;
    assert IndexOf(n.params, "A") == 0;
    assert OwnerOf(ARRAYS[0]) == ObjectOwner(0) && OwnerOf(ARRAYS[1]) == ObjectOwner(1) && OwnerOf(ARRAYS[2]) == ObjectOwner(2);
  }

  lemma GatherNames()
    ensures !Reads(Gather(), "B") && !Writes(Gather(), "B")
  {
    var n := Gather();
    assert Get(LOAD, "op") == LOAD[0].1 && |"load"| != |"store"|;
    assert Get(STORE, "tensor") == STORE[1].1 && "C"[0] != "B"[0];
    forall j | 0 <= j < 3 ensures "B" !in FieldReads(n.params, LOAD, LOAD[j].1) {
    }
    forall j | 0 <= j < 2 ensures "B" !in FieldReads(n.params, STORE, STORE[j].1) {
    }
  }

  lemma GatherSets()
    ensures !InSets(Gather(), ObjectCell(1, 0))
  {
    var n := Gather();
    hide Reads, Writes, Bound, IndexOf;
    GatherNames();
    GatherBinds();
    forall o | o in ReadSet(n) || o in WriteSet(n) ensures o == ObjectOwner(0) || o == ObjectOwner(2) {
      BoundTo(n, if o in ReadSet(n) then ReadNames(n) else WriteNames(n), o);
    }
  }

  lemma BoundTo(n: Node, names: set<string>, o: Owner)
    requires o in BoundOwners(n, names)
    ensures exists s :: s in names && s in n.params && Bound(n, s) == Some(o)
  {
  }
}
