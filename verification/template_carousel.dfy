/**
 * The image ordering of app/dashboard/template/page.tsx: `imageOrder` holds
 * original image indices in display order; Prev and Next swap a position
 * with its neighbour; applying the template puts the uploaded templated
 * image first and the other images after it in `imageOrder` order.
 *
 * Reading an array past its end gives `undefined` in JavaScript; the lists
 * built here hold `Option<string>` so that such an entry shows as `None`.
 */
module TemplateCarousel {
  import opened Wrappers

  /* ---------------- the order ---------------- */

  /** `imageUrls.map((_, idx) => idx)`: the identity order on `n` images. */
  function InitialOrder(n: nat): (order: seq<int>)
    ensures |order| == n
  {
    seq(n, i requires 0 <= i < n => i)
  }

  /** `order` lists each of the indices `0 .. n-1` exactly once. */
  ghost predicate IsIndexPermutation(order: seq<int>, n: nat) {
    multiset(order) == multiset(InitialOrder(n))
  }

  lemma {:induction false} InitialOrderCounts(n: nat, x: int)
    ensures multiset(InitialOrder(n))[x] == if 0 <= x < n then 1 else 0
  {
    if n > 0 {
      assert InitialOrder(n) == InitialOrder(n - 1) + [n - 1];
      InitialOrderCounts(n - 1, x);
    }
  }

  /** The initial order is a permutation, and every index in a permutation is in range. */
  lemma IndexPermutationInRange(order: seq<int>, n: nat)
    requires IsIndexPermutation(order, n)
    ensures |order| == n
    ensures forall i :: 0 <= i < |order| ==> 0 <= order[i] < n
    ensures IsIndexPermutation(InitialOrder(n), n)
  {
    assert |multiset(order)| == |multiset(InitialOrder(n))|;
    forall i | 0 <= i < |order|
      ensures 0 <= order[i] < n
    {
      assert order[i] in multiset(order);
      InitialOrderCounts(n, order[i]);
    }
  }

  /* ---------------- Prev and Next ---------------- */

  /** `order` with positions `i` and `j` exchanged. */
  function SwapAt(order: seq<int>, i: nat, j: nat): (s: seq<int>)
    requires i < |order| && j < |order|
    ensures |s| == |order| && s[i] == order[j] && s[j] == order[i]
    ensures forall k :: 0 <= k < |order| && k != i && k != j ==> s[k] == order[k]
    ensures multiset(s) == multiset(order)
  {
    order[i := order[j]][j := order[i]]
  }

  /** The order after Prev at `displayIndex`: swapped with the previous position, unchanged at the first. */
  function PrevOrder(order: seq<int>, displayIndex: nat): seq<int>
    requires displayIndex < |order|
  {
    if displayIndex > 0 then SwapAt(order, displayIndex - 1, displayIndex) else order
  }

  /** The order after Next at `displayIndex`: swapped with the next position, unchanged at the last. */
  function NextOrder(order: seq<int>, displayIndex: nat): seq<int>
    requires displayIndex < |order|
  {
    if displayIndex < |order| - 1 then SwapAt(order, displayIndex, displayIndex + 1) else order
  }

  /** Prev: copy the order (`[...imageOrder]`), swap in the copy, and return it. */
  method MovePrev(order: seq<int>, displayIndex: nat) returns (newOrder: seq<int>)
    requires displayIndex < |order|
    ensures newOrder == PrevOrder(order, displayIndex)
    ensures multiset(newOrder) == multiset(order)
    ensures displayIndex == 0 ==> newOrder == order
    ensures displayIndex > 0 ==> newOrder[displayIndex - 1] == order[displayIndex] && newOrder[displayIndex] == order[displayIndex - 1]
  {
    if displayIndex > 0 {
      var a := new int[|order|](i requires 0 <= i < |order| => order[i]);
      a[displayIndex], a[displayIndex - 1] := a[displayIndex - 1], a[displayIndex];
      newOrder := a[..];
    } else {
      newOrder := order;
    }
  }

  /** Next: copy the order, swap in the copy, and return it. */
  method MoveNext(order: seq<int>, displayIndex: nat) returns (newOrder: seq<int>)
    requires displayIndex < |order|
    ensures newOrder == NextOrder(order, displayIndex)
    ensures multiset(newOrder) == multiset(order)
    ensures displayIndex == |order| - 1 ==> newOrder == order
    ensures displayIndex < |order| - 1 ==> newOrder[displayIndex + 1] == order[displayIndex] && newOrder[displayIndex] == order[displayIndex + 1]
  {
    if displayIndex < |order| - 1 {
      var a := new int[|order|](i requires 0 <= i < |order| => order[i]);
      a[displayIndex], a[displayIndex + 1] := a[displayIndex + 1], a[displayIndex];
      newOrder := a[..];
    } else {
      newOrder := order;
    }
  }

  /** Prev at `d` undoes Next at `d - 1`, and the other way round; both keep a permutation a permutation. */
  lemma PrevNextInverse(order: seq<int>, d: nat, n: nat)
    requires 0 < d < |order|
    ensures NextOrder(PrevOrder(order, d), d - 1) == order
    ensures PrevOrder(NextOrder(order, d - 1), d) == order
    ensures IsIndexPermutation(order, n) ==> IsIndexPermutation(PrevOrder(order, d), n) && IsIndexPermutation(NextOrder(order, d - 1), n)
  {
  }

  /* ---------------- applying the template ---------------- */

  /** `values[i]`: `undefined` outside the array. */
  function At(values: seq<string>, i: int): Option<string> {
    if 0 <= i < |values| then Some(values[i]) else None
  }

  /** The entries of `imageOrder` the `forEach` pushes: those that are not the templated image, in order. */
  function Kept(order: seq<int>, selected: int): seq<int>
  {
    if order == [] then []
    else Kept(order[..|order| - 1], selected) + (if order[|order| - 1] != selected then [order[|order| - 1]] else [])
  }

  /** The kept entries are those of `imageOrder` with every occurrence of the templated index removed. */
  lemma {:induction false} KeptCounts(order: seq<int>, selected: int)
    ensures multiset(Kept(order, selected)) == multiset(order)[selected := 0]
  {
    if order != [] {
      var init := order[..|order| - 1];
      assert order == init + [order[|order| - 1]];
      KeptCounts(init, selected);
    }
  }

  /** `indices.map(i => values[i])` */
  function Pick(values: seq<string>, indices: seq<int>): (picked: seq<Option<string>>)
    ensures |picked| == |indices|
  {
    seq(|indices|, i requires 0 <= i < |indices| => At(values, indices[i]))
  }

  /**
   * With `imageOrder` a permutation of the `n` image indices and the
   * templated index among them, the other `n - 1` images each come exactly
   * once, so the reordered lists again hold `n` entries, none undefined.
   */
  lemma ReorderedKeepsEveryOtherImage(imageUrls: seq<string>, order: seq<int>, selected: int)
    requires IsIndexPermutation(order, |imageUrls|) && 0 <= selected < |imageUrls|
    ensures |Kept(order, selected)| == |imageUrls| - 1
    ensures forall x :: 0 <= x < |imageUrls| && x != selected ==> multiset(Kept(order, selected))[x] == 1
    ensures forall i :: 0 <= i < |Kept(order, selected)| ==> Pick(imageUrls, Kept(order, selected))[i].Some?
  {
    var n := |imageUrls|;
    var kept := Kept(order, selected);
    KeptCounts(order, selected);
    IndexPermutationInRange(order, n);
    InitialOrderCounts(n, selected);
    assert multiset(order)[selected] == 1;
    assert |multiset(kept)| == |multiset(order)| - 1 by {
      assert multiset(order) == multiset(kept) + multiset{selected};
    }
    forall x | 0 <= x < n && x != selected
      ensures multiset(kept)[x] == 1
    {
      InitialOrderCounts(n, x);
    }
    forall i | 0 <= i < |kept|
      ensures 0 <= kept[i] < n
    {
      assert kept[i] in multiset(kept);
      InitialOrderCounts(n, kept[i]);
    }
  }

  /** One more entry of `imageOrder` pushes one more picked value, or none. */
  lemma KeptStep(values: seq<string>, order: seq<int>, k: nat, selected: int)
    requires k < |order|
    ensures Pick(values, Kept(order[..k + 1], selected))
      == Pick(values, Kept(order[..k], selected)) + (if order[k] != selected then [At(values, order[k])] else [])
  {
    assert order[..k + 1][..k] == order[..k];
    var kept := Kept(order[..k], selected);
    var tail := if order[k] != selected then [order[k]] else [];
    assert Kept(order[..k + 1], selected) == kept + tail;
    assert Pick(values, kept + tail) == Pick(values, kept) + Pick(values, tail);
  }

  /** The reordered URL and publicId lists: the templated image, then the others in `imageOrder` order. */
  method Reorder(imageUrls: seq<string>, imagePublicIds: seq<string>, imageOrder: seq<int>, selected: int,
                 templatedUrl: string, templatedPublicId: string)
      returns (urls: seq<Option<string>>, publicIds: seq<Option<string>>)
    ensures urls == [Some(templatedUrl)] + Pick(imageUrls, Kept(imageOrder, selected))
    ensures publicIds == [Some(templatedPublicId)] + Pick(imagePublicIds, Kept(imageOrder, selected))
    ensures |urls| == |publicIds| == 1 + |Kept(imageOrder, selected)|
  {
    urls := [Some(templatedUrl)];
    publicIds := [Some(templatedPublicId)];
    var k := 0;
    while k < |imageOrder|
      invariant 0 <= k <= |imageOrder|
      invariant urls == [Some(templatedUrl)] + Pick(imageUrls, Kept(imageOrder[..k], selected))
      invariant publicIds == [Some(templatedPublicId)] + Pick(imagePublicIds, Kept(imageOrder[..k], selected))
    {
      var originalIndex := imageOrder[k];
      KeptStep(imageUrls, imageOrder, k, selected);
      KeptStep(imagePublicIds, imageOrder, k, selected);
      if originalIndex != selected {
        urls := urls + [At(imageUrls, originalIndex)];
        publicIds := publicIds + [At(imagePublicIds, originalIndex)];
      }
      k := k + 1;
    }
    assert imageOrder[..k] == imageOrder;
  }

  /** The workflow session fields the handler reads. */
  datatype Workflow = Workflow(imageUrls: seq<string>, imagePublicIds: seq<string>)

  /** What the handler writes to the session: the previous images kept as originals, the reordered ones as current. */
  datatype SessionUpdate = SessionUpdate(
    originalImageUrls: seq<string>,
    originalImagePublicIds: seq<string>,
    imageUrls: seq<Option<string>>,
    imagePublicIds: seq<Option<string>>)

  datatype ApplyOutcome = ApplyError(message: string) | Applied(update: SessionUpdate)

  /**
   * `handleApplyTemplate()`, given the upload result of the rendered
   * template (`cloudUrl` is `cloud.url`, possibly missing or empty).
   * Without images it only reports "No images available".
   */
  method ApplyTemplate(workflow: Option<Workflow>, imageOrder: seq<int>, selected: int,
                       cloudUrl: Option<string>, cloudPublicId: string) returns (outcome: ApplyOutcome)
    ensures workflow.None? || workflow.value.imageUrls == [] ==> outcome == ApplyError("No images available")
    ensures workflow.Some? && workflow.value.imageUrls != [] && (cloudUrl.None? || cloudUrl.value == "") ==>
      outcome == ApplyError("Failed to get URL for templated image")
    ensures workflow.Some? && workflow.value.imageUrls != [] && cloudUrl.Some? && cloudUrl.value != "" ==> outcome.Applied?
    ensures outcome.Applied? ==>
      && workflow.Some? && cloudUrl.Some?
      && outcome.update.originalImageUrls == workflow.value.imageUrls
      && outcome.update.originalImagePublicIds == workflow.value.imagePublicIds
      && outcome.update.imageUrls == [Some(cloudUrl.value)] + Pick(workflow.value.imageUrls, Kept(imageOrder, selected))
      && outcome.update.imagePublicIds == [Some(cloudPublicId)] + Pick(workflow.value.imagePublicIds, Kept(imageOrder, selected))
      && |outcome.update.imageUrls| == |outcome.update.imagePublicIds|
  {
    if workflow.None? || |workflow.value.imageUrls| == 0 {
      return ApplyError("No images available");
    }
    if cloudUrl.None? || cloudUrl.value == "" {
      return ApplyError("Failed to get URL for templated image");
    }
    var urls, publicIds := Reorder(workflow.value.imageUrls, workflow.value.imagePublicIds, imageOrder, selected,
                                   cloudUrl.value, cloudPublicId);
    outcome := Applied(SessionUpdate(workflow.value.imageUrls, workflow.value.imagePublicIds, urls, publicIds));
  }
}
