/** A small model of the JavaScript heap that the query builder and the shape
    helpers mutate in place.

    An address is an index into a sequence of cells. A cell is a plain object
    or an array; an array keeps its indexed elements in `elems` and may also
    carry named keys in `props`, as JavaScript arrays can. The three data-type
    checkers the editor imports from its helper library are defined here with
    the meaning this model assumes for them. */
module Js {

  datatype Value =
    | Undefined
    | Null
    | Bool(b: bool)
    | Num(n: int)
    | Str(s: string)
    | Ref(addr: nat)

  datatype Obj = Obj(isArray: bool, props: map<string, Value>, elems: seq<Value>)

  type Cells = seq<Obj>

  /** The outcome of running code on the heap: the cells afterwards, and
      whether it ended by throwing a TypeError. */
  datatype Run = Run(cells: Cells, threw: bool)

  /** `{}` */
  const EmptyObject := Obj(false, map[], [])
  /** `[]` */
  const EmptyArray := Obj(true, map[], [])
  /** A freshly created arrow function: an object with no own keys of interest. */
  const FunctionObject := Obj(false, map[], [])

  predicate ValueIn(v: Value, n: nat) {
    v.Ref? ==> v.addr < n
  }

  predicate ObjIn(o: Obj, n: nat) {
    && (forall k :: k in o.props ==> ValueIn(o.props[k], n))
    && (forall i :: 0 <= i < |o.elems| ==> ValueIn(o.elems[i], n))
  }

  /** Every reference stored in the heap points at a cell of the heap. */
  predicate Closed(h: Cells) {
    forall a :: 0 <= a < |h| ==> ObjIn(h[a], |h|)
  }

  /** `v` is a reference to a cell of `h`, i.e. a JavaScript object. */
  predicate IsObject(h: Cells, v: Value) {
    v.Ref? && v.addr < |h|
  }

  /** Reading `v[k]` on an object: the own key if present, otherwise undefined. */
  function Prop(h: Cells, v: Value, k: string): (r: Value)
    ensures IsObject(h, v) && k in h[v.addr].props ==> r == h[v.addr].props[k]
    ensures !(IsObject(h, v) && k in h[v.addr].props) ==> r == Undefined
  {
    if IsObject(h, v) && k in h[v.addr].props then h[v.addr].props[k] else Undefined
  }

  /** `isArrayHasLength(v)`: `v` is an array with at least one element. */
  predicate IsArrayHasLength(h: Cells, v: Value) {
    IsObject(h, v) && h[v.addr].isArray && |h[v.addr].elems| > 0
  }

  /** `isObjectHasKeys(v)`: `v` is a non-array object with at least one own key. */
  predicate IsObjectHasKeys(h: Cells, v: Value) {
    IsObject(h, v) && !h[v.addr].isArray && |h[v.addr].props| > 0
  }

  /** Every key of `ks` is an own key of the record `props`. */
  predicate HasKeys(props: map<string, Value>, ks: seq<string>) {
    forall i :: 0 <= i < |ks| ==> ks[i] in props
  }

  /** `isObjectHasKeys(v, ks)`: `v` is a non-array object owning every key of `ks`. */
  predicate IsObjectHasAllKeys(h: Cells, v: Value, ks: seq<string>) {
    IsObject(h, v) && !h[v.addr].isArray && HasKeys(h[v.addr].props, ks)
  }

  /** `Array.prototype.includes`: membership by identity for objects. */
  predicate Includes(elems: seq<Value>, v: Value) {
    v in elems
  }

  /** `o[k] = v` on the cell at `a`. */
  function SetProp(h: Cells, a: nat, k: string, v: Value): (r: Cells)
    requires a < |h|
    ensures |r| == |h| && r[a].props == h[a].props[k := v]
    ensures r[a].isArray == h[a].isArray && r[a].elems == h[a].elems
    ensures forall b :: 0 <= b < |h| && b != a ==> r[b] == h[b]
  {
    h[a := h[a].(props := h[a].props[k := v])]
  }

  /** `arr.push(v)` on the cell at `a`. */
  function PushElem(h: Cells, a: nat, v: Value): (r: Cells)
    requires a < |h|
    ensures |r| == |h| && r[a].elems == h[a].elems + [v]
    ensures r[a].isArray == h[a].isArray && r[a].props == h[a].props
    ensures forall b :: 0 <= b < |h| && b != a ==> r[b] == h[b]
  {
    h[a := h[a].(elems := h[a].elems + [v])]
  }

  /** The heap only grew: no cell changed kind, lost a key or lost an element,
      and every array kept its elements as a prefix. */
  predicate Grows(h: Cells, h': Cells) {
    && |h| <= |h'|
    && forall a :: 0 <= a < |h| ==>
         && h'[a].isArray == h[a].isArray
         && h[a].props.Keys <= h'[a].props.Keys
         && h[a].elems <= h'[a].elems
  }

  lemma GrowsTrans(h1: Cells, h2: Cells, h3: Cells)
    requires Grows(h1, h2) && Grows(h2, h3)
    ensures Grows(h1, h3)
  {
    forall a | 0 <= a < |h1|
      ensures h3[a].isArray == h1[a].isArray
      ensures h1[a].props.Keys <= h3[a].props.Keys
      ensures h1[a].elems <= h3[a].elems
    {
      assert h1[a].elems <= h2[a].elems <= h3[a].elems;
    }
  }

  /** The heap object shared by the builder and the shape helpers. */
  class Heap {
    var cells: Cells

    constructor (initial: Cells)
      ensures cells == initial
    {
      cells := initial;
    }

    /** Evaluates `v[k]`. */
    method Get(v: Value, k: string) returns (r: Value)
      ensures r == Prop(cells, v, k)
    {
      if IsObject(cells, v) && k in cells[v.addr].props {
        r := cells[v.addr].props[k];
      } else {
        r := Undefined;
      }
    }

    /** Evaluates `o[k] = v` for the object at `a`. */
    method Set(a: nat, k: string, v: Value)
      requires a < |cells|
      modifies this
      ensures cells == SetProp(old(cells), a, k, v)
    {
      cells := cells[a := cells[a].(props := cells[a].props[k := v])];
    }

    /** Evaluates `arr.push(v)` for the array at `a`. */
    method Push(a: nat, v: Value)
      requires a < |cells|
      modifies this
      ensures cells == PushElem(old(cells), a, v)
    {
      cells := cells[a := cells[a].(elems := cells[a].elems + [v])];
    }

    /** Allocates a new object or array and returns a reference to it. */
    method New(o: Obj) returns (r: Value)
      modifies this
      ensures cells == old(cells) + [o] && r == Ref(|old(cells)|)
    {
      r := Ref(|cells|);
      cells := cells + [o];
    }
  }
}
