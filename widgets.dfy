/**
 * The theme script's small interactive widgets: the screenshot lightbox
 * (an index moving over a fixed number of images), the tab strip of the
 * product page, and the filter-section headers that flip `aria-expanded`.
 */
module Widgets {
  import opened Text

  /** The screenshot lightbox. `total` images, one active at a time; the
      counter, prev and next controls may be missing from the markup. */
  class Lightbox {
    const total: nat
    const hasCounter: bool
    const hasPrev: bool
    const hasNext: bool
    var currentIndex: int
    var imageActive: seq<bool>
    var counter: int
    var prevDisabled: bool
    var nextDisabled: bool
    var open: bool

    /** The index lies on an image. */
    predicate InRange()
      reads this
    {
      0 <= currentIndex < total
    }

    /** The markup shows `currentIndex`: exactly that image is active, the
        counter reads index + 1, prev is disabled iff at the first image
        and next iff at the last. */
    predicate Synced()
      reads this
    {
      && |imageActive| == total
      && (forall i :: 0 <= i < total ==> (imageActive[i] <==> i == currentIndex))
      && (hasCounter ==> counter == currentIndex + 1)
      && (hasPrev ==> (prevDisabled <==> currentIndex == 0))
      && (hasNext ==> (nextDisabled <==> currentIndex == total - 1))
    }

    /** The lightbox as rendered: closed, the first image active, the
        counter at 1. */
    constructor (total: nat, hasCounter: bool, hasPrev: bool, hasNext: bool)
      ensures this.total == total && this.hasCounter == hasCounter
      ensures this.hasPrev == hasPrev && this.hasNext == hasNext
      ensures currentIndex == 0 && !open
      ensures |imageActive| == total && forall i :: 0 <= i < total ==> (imageActive[i] <==> i == 0)
      ensures counter == 1
    {
      this.total := total;
      this.hasCounter := hasCounter;
      this.hasPrev := hasPrev;
      this.hasNext := hasNext;
      currentIndex := 0;
      imageActive := seq(total, i => i == 0);
      counter := 1;
      prevDisabled := false;
      nextDisabled := false;
      open := false;
    }

    /** `updateLightbox`. */
    method Update()
      modifies this
      ensures Synced()
      ensures currentIndex == old(currentIndex) && open == old(open)
      ensures !hasCounter ==> counter == old(counter)
      ensures !hasPrev ==> prevDisabled == old(prevDisabled)
      ensures !hasNext ==> nextDisabled == old(nextDisabled)
    {
      var flags := seq(total, _ => false);
      var i := 0;
      while i < total
        invariant 0 <= i <= total && |flags| == total
        invariant forall k :: 0 <= k < i ==> (flags[k] <==> k == currentIndex)
      {
        flags := flags[i := i == currentIndex];
        i := i + 1;
      }
      imageActive := flags;
      if hasCounter {
        counter := currentIndex + 1;
      }
      if hasPrev {
        prevDisabled := currentIndex == 0;
      }
      if hasNext {
        nextDisabled := currentIndex == total - 1;
      }
    }

    /** `openLightbox(index)`, called with a thumbnail's `data-index`, which
        the page renders from the same list as the images. */
    method Open(index: int)
      requires 0 <= index < total
      modifies this
      ensures currentIndex == index && open
      ensures InRange() && Synced()
    {
      currentIndex := index;
      Update();
      open := true;
    }

    /** `closeLightbox`: only the open state changes. */
    method Close()
      modifies this
      ensures !open
      ensures currentIndex == old(currentIndex) && imageActive == old(imageActive) && counter == old(counter)
      ensures prevDisabled == old(prevDisabled) && nextDisabled == old(nextDisabled)
    {
      open := false;
    }

    /** `goToNext`: one image on, or nothing at the last image. */
    method Next()
      modifies this
      ensures old(currentIndex) < total - 1 ==> currentIndex == old(currentIndex) + 1 && Synced()
      ensures old(currentIndex) >= total - 1 ==>
        currentIndex == old(currentIndex) && imageActive == old(imageActive) && counter == old(counter)
        && prevDisabled == old(prevDisabled) && nextDisabled == old(nextDisabled)
      ensures old(InRange()) ==> InRange()
      ensures open == old(open)
    {
      if currentIndex < total - 1 {
        currentIndex := currentIndex + 1;
        Update();
      }
    }

    /** `goToPrev`: one image back, or nothing at the first image. */
    method Prev()
      modifies this
      ensures old(currentIndex) > 0 ==> currentIndex == old(currentIndex) - 1 && Synced()
      ensures old(currentIndex) <= 0 ==>
        currentIndex == old(currentIndex) && imageActive == old(imageActive) && counter == old(counter)
        && prevDisabled == old(prevDisabled) && nextDisabled == old(nextDisabled)
      ensures old(InRange()) ==> InRange()
      ensures open == old(open)
    {
      if currentIndex > 0 {
        currentIndex := currentIndex - 1;
        Update();
      }
    }

    /** The document's `keydown` handler: ignored while closed; Escape
        closes, the arrow keys move, and any other key changes nothing. */
    method KeyDown(key: string)
      modifies this
      ensures !old(open) ==>
        && !open && currentIndex == old(currentIndex) && imageActive == old(imageActive)
        && counter == old(counter) && prevDisabled == old(prevDisabled) && nextDisabled == old(nextDisabled)
      ensures old(open) && key == "Escape" ==>
        && !open && currentIndex == old(currentIndex) && imageActive == old(imageActive)
        && counter == old(counter) && prevDisabled == old(prevDisabled) && nextDisabled == old(nextDisabled)
      ensures old(open) && key != "Escape" && key != "ArrowLeft" && key != "ArrowRight" ==>
        && open && currentIndex == old(currentIndex) && imageActive == old(imageActive)
        && counter == old(counter) && prevDisabled == old(prevDisabled) && nextDisabled == old(nextDisabled)
      ensures old(open) && key == "ArrowLeft" ==> open && currentIndex == (if old(currentIndex) > 0 then old(currentIndex) - 1 else old(currentIndex))
      ensures old(open) && key == "ArrowRight" ==> open && currentIndex == (if old(currentIndex) < total - 1 then old(currentIndex) + 1 else old(currentIndex))
      ensures old(InRange()) ==> InRange()
      ensures old(Synced()) ==> Synced()
    {
      if !open {
        return;
      }
      if key == "Escape" {
        Close();
      } else if key == "ArrowLeft" {
        Prev();
      } else if key == "ArrowRight" {
        Next();
      }
    }
  }

  /** Walking the lightbox forward from its first image reaches the last
      image, with the counter at the number of images. */
  method WalkToEnd(total: nat) returns (index: int, counter: int, nextDisabled: bool)
    requires total > 0
    ensures index == total - 1 && counter == total && nextDisabled
  {
    var box := new Lightbox(total, true, true, true);
    box.Open(0);
    var steps := 0;
    while steps < total - 1
      invariant 0 <= steps <= total - 1
      invariant box.currentIndex == steps && box.Synced() && box.InRange()
      invariant box.total == total && box.hasCounter && box.hasNext
    {
      box.Next();
      steps := steps + 1;
    }
    box.Next();
    index, counter, nextDisabled := box.currentIndex, box.counter, box.nextDisabled;
  }

  /** The product page's tab strip: each button's `data-tab`, each panel's
      `id`, and which of them carry the `active` class. */
  class TabStrip {
    const buttonTabs: seq<string>
    const panelIds: seq<string>
    var buttonActive: seq<bool>
    var panelActive: seq<bool>

    constructor (buttonTabs: seq<string>, panelIds: seq<string>, buttonActive: seq<bool>, panelActive: seq<bool>)
      ensures this.buttonTabs == buttonTabs && this.panelIds == panelIds
      ensures this.buttonActive == buttonActive && this.panelActive == panelActive
    {
      this.buttonTabs := buttonTabs;
      this.panelIds := panelIds;
      this.buttonActive := buttonActive;
      this.panelActive := panelActive;
    }

    /** A click on button `b`: it alone becomes active, and a panel is
        active iff its id is "tab-" followed by the button's `data-tab`. */
    method Click(b: nat)
      requires b < |buttonTabs|
      modifies this
      ensures |buttonActive| == |buttonTabs| && forall i :: 0 <= i < |buttonTabs| ==> (buttonActive[i] <==> i == b)
      ensures |panelActive| == |panelIds|
      ensures forall k :: 0 <= k < |panelIds| ==> (panelActive[k] <==> panelIds[k] == "tab-" + buttonTabs[b])
    {
      var buttons := seq(|buttonTabs|, _ => false);
      buttons := buttons[b := true];
      buttonActive := buttons;
      var target := "tab-" + buttonTabs[b];
      var panels := seq(|panelIds|, _ => false);
      var k := 0;
      while k < |panelIds|
        invariant 0 <= k <= |panelIds| && |panels| == |panelIds|
        invariant forall j :: 0 <= j < k ==> (panels[j] <==> panelIds[j] == target)
      {
        panels := panels[k := false];
        if panelIds[k] == target {
          panels := panels[k := true];
        }
        k := k + 1;
      }
      panelActive := panels;
    }
  }

  /** With distinct panel ids at most one panel is active after a click, and
      exactly one when some panel carries the button's id. */
  lemma OnePanelActive(panelIds: seq<string>, panelActive: seq<bool>, target: string)
    requires |panelActive| == |panelIds|
    requires forall i, j :: 0 <= i < j < |panelIds| ==> panelIds[i] != panelIds[j]
    requires forall k :: 0 <= k < |panelIds| ==> (panelActive[k] <==> panelIds[k] == target)
    ensures forall i, j :: 0 <= i < |panelIds| && 0 <= j < |panelIds| && panelActive[i] && panelActive[j] ==> i == j
    ensures target in panelIds ==> exists k :: 0 <= k < |panelIds| && panelActive[k]
  {
  }

  /** The value a filter header's click writes to `aria-expanded`: "false"
      when it read "true", else "true" (also when missing). */
  function AriaAfterClick(attr: Option<string>): (r: string)
    ensures r == "false" <==> attr == Some("true")
    ensures r == "true" || r == "false"
  {
    if attr == Some("true") then "false" else "true"
  }

  /** Two clicks bring any header to the state it read as. */
  lemma TwoClicksRestore(attr: Option<string>)
    ensures AriaAfterClick(Some(AriaAfterClick(attr))) == (if attr == Some("true") then "true" else "false")
  {
    assert "false" != "true";
  }

  /** A filter-section header. */
  class FilterHeader {
    var ariaExpanded: Option<string>

    constructor (ariaExpanded: Option<string>)
      ensures this.ariaExpanded == ariaExpanded
    {
      this.ariaExpanded := ariaExpanded;
    }

    method Click()
      modifies this
      ensures ariaExpanded == Some(AriaAfterClick(old(ariaExpanded)))
    {
      ariaExpanded := Some(AriaAfterClick(ariaExpanded));
    }
  }
}
