/** Which arrays a captured launch reads and writes, inferred from the names in its kernel's operations. */
module ReadWriteSets {
  import opened Effects

  /** An expression as written, and the names in it. */
  datatype Expr = Expr(text: string, names: set<string>)
  {
    /** A parameter's name, on its own, is the only name in it. */
    ghost predicate Parsed(params: seq<string>) {
      text in params ==> names == {text}
    }
  }

  /** A field of a kernel operation. */
  datatype Field = Text(e: Expr) | Items(items: seq<Expr>) | Other
  datatype KernelOp = Dict(fields: seq<(string, Field)>) | NotADict

  /** An array argument: a view leads to the array it views. */
  datatype ArrayRef = Base(owner: Owner) | View(of: ArrayRef)

  datatype Node = Node(params: seq<string>, ops: seq<KernelOp>, arrays: seq<ArrayRef>, launch: Launch)

  method ResolveOwner(a: ArrayRef) returns (o: Owner)
    ensures o == OwnerOf(a)
  {
    var current := a;
    while current.View?
      invariant OwnerOf(current) == OwnerOf(a)
      decreases current
    {
      current := current.of;
    }
    o := current.owner;
  }

  function OwnerOf(a: ArrayRef): Owner {
    match a case Base(o) => o case View(b) => OwnerOf(b)
  }

  function Get(fields: seq<(string, Field)>, key: string): Field {
    if fields == [] then Other else if fields[0].0 == key then fields[0].1 else Get(fields[1..], key)
  }

  predicate IsStore(fields: seq<(string, Field)>) {
    var f := Get(fields, "op");
    f.Text? && f.e.text == "store"
  }

  /** The field names the parameter that the store writes. */
  predicate IsStoreTarget(fields: seq<(string, Field)>, f: Field) {
    var t := Get(fields, "tensor");
    IsStore(fields) && f.Text? && t.Text? && f.e.text == t.e.text
  }

  /** Names a field reads, given the parameter names. */
  function FieldReads(params: seq<string>, fields: seq<(string, Field)>, f: Field): set<string> {
    match f
    case Text(e) =>
      if e.text in params then (if IsStoreTarget(fields, f) then {} else {e.text})
      else set s | s in e.names && s in params
    case Items(items) => set e | e in items && e.text in params :: e.text
    case Other => {}
  }

  /** A parameter is read iff some field of some operation reads it, written iff some store targets it. */
  ghost predicate Reads(n: Node, name: string) {
    exists i, j :: 0 <= i < |n.ops| && n.ops[i].Dict? && 0 <= j < |n.ops[i].fields|
                   && name in FieldReads(n.params, n.ops[i].fields, n.ops[i].fields[j].1)
  }

  ghost predicate Writes(n: Node, name: string) {
    exists i :: 0 <= i < |n.ops| && n.ops[i].Dict? && name in n.params && WritesIn(n.ops[i].fields, name)
  }

  predicate WritesIn(fields: seq<(string, Field)>, name: string) {
    IsStore(fields) && Get(fields, "tensor").Text? && Get(fields, "tensor").e.text == name
  }

  /** Position of a parameter; a repeated name means its last position. */
  function IndexOf(params: seq<string>, name: string): (i: nat)
    requires name in params
    ensures i < |params| && params[i] == name
  {
    if params[|params| - 1] == name then |params| - 1 else IndexOf(params[..|params| - 1], name)
  }

  method OwnersOf(n: Node, names: set<string>) returns (owners: set<Owner>)
    requires forall s :: s in names ==> s in n.params
    ensures owners == BoundOwners(n, names)
  {
    owners := {};
    var todo := names;
    while todo != {}
      invariant todo <= names && owners == BoundOwners(n, names - todo)
      decreases todo
    {
      var s :| s in todo;
      var idx := IndexOf(n.params, s);
      ghost var before := names - todo;
      todo := todo - {s};
      assert names - todo == before + {s};
      if idx < |n.arrays| {
        var o := ResolveOwner(n.arrays[idx]);
        assert BoundOwners(n, before + {s}) == BoundOwners(n, before) + {o};
        owners := owners + {o};
      } else {
        assert BoundOwners(n, before + {s}) == BoundOwners(n, before);
      }
    }
    assert names - {} == names;
  }

  ghost function BoundOwners(n: Node, names: set<string>): set<Owner> {
    set s | s in names && s in n.params && IndexOf(n.params, s) < |n.arrays| :: OwnerOf(n.arrays[IndexOf(n.params, s)])
  }

  ghost function ReadNames(n: Node): set<string> { set s | s in n.params && Reads(n, s) }
  ghost function WriteNames(n: Node): set<string> { set s | s in n.params && Writes(n, s) }

  method InferReadWriteSets(n: Node) returns (readSet: set<Owner>, writeSet: set<Owner>)
    ensures readSet == BoundOwners(n, ReadNames(n))
    ensures writeSet == BoundOwners(n, WriteNames(n))
  {
    var readNames: set<string>, writeNames: set<string> := {}, {};
    for k := 0 to |n.ops|
      invariant readNames == ReadNames(n.(ops := n.ops[..k]))
      invariant writeNames == WriteNames(n.(ops := n.ops[..k]))
    {
      ReadsSnoc(n, k);
      WritesSnoc(n, k);
      match n.ops[k]
      case NotADict =>
      case Dict(fields) =>
        var target := Get(fields, "tensor");
        if IsStore(fields) && target.Text? && target.e.text in n.params {
          writeNames := writeNames + {target.e.text};
        }
        var fromFields := ReadsOfFields(n.params, fields);
        readNames := readNames + fromFields;
    }
    assert n.ops[..|n.ops|] == n.ops;
    readSet := OwnersOf(n, readNames);
    writeSet := OwnersOf(n, writeNames);
  }

  method ReadsOfFields(params: seq<string>, fields: seq<(string, Field)>) returns (names: set<string>)
    ensures names == set j, s | 0 <= j < |fields| && s in FieldReads(params, fields, fields[j].1) :: s
  {
    names := {};
    for j := 0 to |fields|
      invariant forall s :: s in names <==> exists i :: 0 <= i < j && s in FieldReads(params, fields, fields[i].1)
    {
      names := names + FieldReads(params, fields, fields[j].1);
    }
  }

  lemma FieldReadsAreParams(params: seq<string>, fields: seq<(string, Field)>, f: Field)
    ensures forall s :: s in FieldReads(params, fields, f) ==> s in params
  {}

  ghost predicate ReadsIn(n: Node, k: nat, name: string)
    requires k < |n.ops|
  {
    n.ops[k].Dict? && exists j :: 0 <= j < |n.ops[k].fields|
                                  && name in FieldReads(n.params, n.ops[k].fields, n.ops[k].fields[j].1)
  }

  lemma ReadsSnoc(n: Node, k: nat)
    requires k < |n.ops|
    ensures ReadNames(n.(ops := n.ops[..k + 1])) == ReadNames(n.(ops := n.ops[..k])) +
            if n.ops[k].Dict?
            then set j, s | 0 <= j < |n.ops[k].fields| && s in FieldReads(n.params, n.ops[k].fields, n.ops[k].fields[j].1) :: s
            else {}
  {
    var a, b := n.(ops := n.ops[..k]), n.(ops := n.ops[..k + 1]);
    forall s
      ensures Reads(b, s) <==> (Reads(a, s) || ReadsIn(n, k, s))
    {
      if Reads(a, s) {
        var i, j :| 0 <= i < |a.ops| && a.ops[i].Dict? && 0 <= j < |a.ops[i].fields|
                    && s in FieldReads(a.params, a.ops[i].fields, a.ops[i].fields[j].1);
        assert b.ops[i] == a.ops[i];
      }
      if Reads(b, s) {
        var i, j :| 0 <= i < |b.ops| && b.ops[i].Dict? && 0 <= j < |b.ops[i].fields|
                    && s in FieldReads(b.params, b.ops[i].fields, b.ops[i].fields[j].1);
        assert i < k ==> a.ops[i] == b.ops[i];
      }
      if n.ops[k].Dict? { assert b.ops[k] == n.ops[k]; }
    }
    if n.ops[k].Dict? {
      forall j | 0 <= j < |n.ops[k].fields| {
        FieldReadsAreParams(n.params, n.ops[k].fields, n.ops[k].fields[j].1);
      }
    }
  }

  lemma WritesSnoc(n: Node, k: nat)
    requires k < |n.ops|
    ensures WriteNames(n.(ops := n.ops[..k + 1])) == WriteNames(n.(ops := n.ops[..k])) +
            if n.ops[k].Dict? && IsStore(n.ops[k].fields) && Get(n.ops[k].fields, "tensor").Text?
               && Get(n.ops[k].fields, "tensor").e.text in n.params
            then {Get(n.ops[k].fields, "tensor").e.text} else {}
  {
    var a, b := n.(ops := n.ops[..k]), n.(ops := n.ops[..k + 1]);
    assert b.ops[k] == n.ops[k] && forall i :: 0 <= i < k ==> a.ops[i] == b.ops[i];
  }
}
