/**
 * SELECT_ELEMENT exactly as the reducer writes it: `findIndex`, then
 * `splice(index, 1)` with JavaScript's rule for a negative start, then `push`
 * of whatever `splice` returned first, which is `undefined` when it removed
 * nothing. A list slot therefore may hold `undefined`.
 */
module SelectAsWritten {
  import opened BoardStore

  datatype Slot = Undefined | Present(e: Element)

  /** The list as slots, every one holding an element. */
  function Lift(els: seq<Element>): (r: seq<Slot>)
    ensures |r| == |els|
    ensures forall j :: 0 <= j < |els| ==> r[j] == Present(els[j])
  {
    seq(|els|, j requires 0 <= j < |els| => Present(els[j]))
  }

  /**
   * The position `splice` starts at: a negative start counts back from the
   * end (and stops at 0), a start past the end is the end.
   */
  function SpliceStart(start: int, len: nat): (k: nat)
    ensures k <= len
    ensures 0 <= start <= len ==> k == start
    ensures start < 0 && 0 <= len + start ==> k == len + start
    ensures start < 0 && len + start < 0 ==> k == 0
    ensures len < start ==> k == len
  {
    if start < 0 then (if len + start < 0 then 0 else len + start)
    else if start > len then len
    else start
  }

  /**
   * The element list after SELECT_ELEMENT, `undefined` included: the list
   * keeps its length and holds no `undefined` exactly when it was not empty.
   */
  function SelectSlotsAsWritten(els: seq<Element>, id: string): (r: seq<Slot>)
    ensures |r| == |els| + (if |els| == 0 then 1 else 0)
    ensures Undefined in r <==> |els| == 0
  {
    var index := FindIndex(els, id);
    var k := SpliceStart(index, |els|);
    var stop := if k < |els| then k + 1 else k;
    var removed := els[k..stop];
    var element := if |removed| > 0 then Present(removed[0]) else Undefined;
    Lift(els[..k] + els[stop..]) + [element]
  }

  /** On the empty list the written code grows the list by one `undefined` slot. */
  lemma EmptySelectPushesUndefined(id: string)
    ensures SelectSlotsAsWritten([], id) == [Undefined]
  {
  }

  /**
   * On every non-empty list the written code and the store's SelectElements
   * agree: for a missing id it takes the last element out and pushes it back.
   */
  lemma AsWrittenAgreesOnNonEmpty(els: seq<Element>, id: string)
    requires |els| > 0
    ensures SelectSlotsAsWritten(els, id) == Lift(SelectElements(els, id))
  {
    var index := FindIndex(els, id);
    var n := |els|;
    if index == -1 {
      assert SpliceStart(index, n) == n - 1;
      assert els[..n - 1] + els[n..] + [els[n - 1]] == els;
      var a := Lift(els[..n - 1] + els[n..]) + [Present(els[n - 1])];
      assert forall j :: 0 <= j < n ==> a[j] == Lift(els)[j];
    } else {
      var body := els[..index] + els[index + 1..];
      var a := Lift(body) + [Present(els[index])];
      var b := Lift(body + [els[index]]);
      assert |a| == |b|;
      assert forall j :: 0 <= j < |a| ==> a[j] == b[j];
    }
  }

  /** The store's SelectElements always yields a permutation of the list, the empty list included. */
  lemma SelectElementsIsPermutation(els: seq<Element>, id: string)
    ensures multiset(SelectElements(els, id)) == multiset(els)
  {
    var i := FindIndex(els, id);
    if i >= 0 {
      assert els == els[..i] + [els[i]] + els[i + 1..];
      assert multiset(els) == multiset(els[..i]) + multiset([els[i]]) + multiset(els[i + 1..]);
    }
  }
}
