/**
 Renaming an address in the whitelist: the batch of copy, drop and update statements, and the simple
 replacement it amounts to.
 */
module WhitelistRename {

  /** The unique key of a whitelist row: who, and which address it allows. */
  datatype Id = Id(system: string, addr: string, value: string)

  /** Everything else in the row. */
  datatype Content = Content(direction: string, description: string, active: bool, category: string, key: int)

  type Rows = map<Id, Content>

  predicate Mentions(k: Id, a: string) {
    k.addr == a || k.value == a
  }

  // ── The statements, in the order of the batch ─────────────────────────

  /** INSERT OR IGNORE of the `from` address's rows under `to`. */
  function CopyAddr(w: Rows, from: string, to: string): Rows {
    var copies := set k | k in w && k.addr == from :: k.(addr := to);
    map k | k in w.Keys + copies :: if k in w then w[k] else w[k.(addr := from)]
  }

  function DropAddr(w: Rows, from: string): Rows {
    map k | k in w && k.addr != from :: w[k]
  }

  /** INSERT OR IGNORE of the rows that allow `from`, allowing `to` instead. */
  function CopyValue(w: Rows, from: string, to: string): Rows {
    var copies := set k | k in w && k.value == from && k.addr != from :: k.(value := to);
    map k | k in w.Keys + copies :: if k in w then w[k] else w[k.(value := from)]
  }

  function DropValue(w: Rows, from: string): Rows {
    map k | k in w && !(k.value == from && k.addr != from) :: w[k]
  }

  /** The rows the final UPDATE would touch. */
  function Leftover(w: Rows, from: string, to: string): set<Id> {
    set k | k in w && k.addr == to && k.value == from
  }

  // ── What the batch amounts to ─────────────────────────────────────────

  function Replace(a: string, from: string, to: string): string {
    if a == from then to else a
  }

  function Image(k: Id, from: string, to: string): Id {
    Id(k.system, Replace(k.addr, from, to), Replace(k.value, from, to))
  }

  function Images(w: Rows, from: string, to: string): set<Id> {
    set k | k in w :: Image(k, from, to)
  }

  /** The row that supplies a renamed row: the target's own wins, and the allowed side is settled last. */
  function Supplier(w: Rows, t: Id, from: string, to: string): Id {
    if t in w then t
    else if t.addr == to && t.(addr := from) in w then t.(addr := from)
    else if t.value == to && t.(value := from) in w then t.(value := from)
    else t.(addr := Replace(t.addr, to, from), value := Replace(t.value, to, from))
  }

  lemma SupplierIsPreimage(w: Rows, t: Id, from: string, to: string)
    requires from != to && t in Images(w, from, to)
    ensures Supplier(w, t, from, to) in w
    ensures !Mentions(t, from)
    ensures Image(Supplier(w, t, from, to), from, to) == t
  {
  }

  /** Every row with `from` replaced by `to` on both sides. */
  ghost function Renamed(w: Rows, from: string, to: string): Rows
    requires from != to
  {
    map t | t in Images(w, from, to) :: SupplierIsPreimage(w, t, from, to); w[Supplier(w, t, from, to)]
  }

  lemma AfterAddr(w: Rows, from: string, to: string, k: Id)
    requires from != to
    ensures var w2 := DropAddr(CopyAddr(w, from, to), from);
      && (k in w2 <==> k.addr != from && (k in w || (k.addr == to && k.(addr := from) in w)))
      && (k in w2 ==> w2[k] == if k in w then w[k] else w[k.(addr := from)])
  {
  }

  lemma AfterValue(w: Rows, from: string, to: string, k: Id)
    requires from != to && forall x :: x in w ==> x.addr != from
    ensures var w2 := DropValue(CopyValue(w, from, to), from);
      && (k in w2 <==> k.value != from && (k in w || (k.value == to && k.(value := from) in w)))
      && (k in w2 ==> w2[k] == if k in w then w[k] else w[k.(value := from)])
  {
  }

  function Batch(w: Rows, from: string, to: string): Rows {
    DropValue(CopyValue(DropAddr(CopyAddr(w, from, to), from), from, to), from)
  }

  lemma BatchRow(w: Rows, from: string, to: string, t: Id)
    requires from != to
    ensures t in Batch(w, from, to) <==> t in Images(w, from, to)
    ensures t in Images(w, from, to) ==> Batch(w, from, to)[t] == Renamed(w, from, to)[t]
  {
    var w2 := DropAddr(CopyAddr(w, from, to), from);
    AfterAddr(w, from, to, t);
    AfterAddr(w, from, to, t.(value := from));
    AfterValue(w2, from, to, t);
    if t in Images(w, from, to) {
      SupplierIsPreimage(w, t, from, to);
    }
    if t in Batch(w, from, to) {
      assert Image(t, from, to) == t;
      assert Image(t.(addr := from), from, to) == t || t.addr != to;
      assert Image(t.(value := from), from, to) == t || t.value != to;
      assert Image(t.(addr := from, value := from), from, to) == t || t.addr != to || t.value != to;
    }
  }

  /** The batch is the replacement, and leaves nothing for the final UPDATE. */
  lemma BatchIsRename(w: Rows, from: string, to: string)
    requires from != to
    ensures Batch(w, from, to) == Renamed(w, from, to)
    ensures Leftover(Batch(w, from, to), from, to) == {}
  {
    forall t ensures t in Batch(w, from, to) <==> t in Renamed(w, from, to)
    {
      BatchRow(w, from, to, t);
    }
    forall t | t in Batch(w, from, to) ensures Batch(w, from, to)[t] == Renamed(w, from, to)[t] {
      BatchRow(w, from, to, t);
    }
  }

  /** The key set is the image; nothing mentions `from`; unrelated rows and existing targets keep their contents. */
  lemma RenameKeepsRest(w: Rows, from: string, to: string)
    requires from != to
    ensures Renamed(w, from, to).Keys == Images(w, from, to)
    ensures forall t :: t in Renamed(w, from, to) ==> !Mentions(t, from)
    ensures forall k :: k in w && !Mentions(k, from) ==>
      k in Renamed(w, from, to) && Renamed(w, from, to)[k] == w[k]
    ensures forall t :: t in Renamed(w, from, to) && !Mentions(t, to) ==> t in w
  {
  }

  /** Renaming an address to itself would not be the identity: it drops every row that mentions it. */
  lemma SelfRename(w: Rows, a: string)
    ensures Batch(w, a, a) == map k | k in w && !Mentions(k, a) :: w[k]
    ensures Batch(w, a, a) == w <==> forall k :: k in w ==> !Mentions(k, a)
  {
  }

  class Whitelist {
    var rows: Rows

    constructor ()
      ensures rows == map[]
    {
      rows := map[];
    }

    /** The batch: the final UPDATE runs only on leftovers, and there are none. */
    method Rename(from: string, to: string)
      modifies this
      ensures from != to ==> rows == Renamed(old(rows), from, to)
      ensures from == to ==> rows == map k | k in old(rows) && !Mentions(k, from) :: old(rows)[k]
    {
      if from == to {
        SelfRename(rows, from);
      } else {
        BatchIsRename(rows, from, to);
      }
      rows := CopyAddr(rows, from, to);
      rows := DropAddr(rows, from);
      rows := CopyValue(rows, from, to);
      rows := DropValue(rows, from);
      assert rows == Batch(old(rows), from, to);
      assert Leftover(rows, from, to) == {};
    }
  }
}
