/**
 * The public banner carousel (src/components/BannerDisplay.tsx): the active
 * banners of one position, rotated by a timer and chosen by indicator clicks.
 */
module BannerDisplayComponent {
  import opened Common
  import opened BannerService

  /** What the component renders: nothing, one banner (linked or not), or a render-time failure. */
  datatype View = Nothing | Show(banner: Banner, linked: bool) | RenderFailure

  /** One rotation step over `count` banners. */
  function NextIndex(i: int, count: nat): (j: int)
    requires count > 0
    ensures 0 <= j < count
    ensures 0 <= i < count - 1 ==> j == i + 1
    ensures i == count - 1 ==> j == 0
  {
    (i + 1) % count
  }

  /** The index after `k` rotation steps. */
  function Rotate(i: int, k: nat, count: nat): (j: int)
    requires count > 0
    ensures k > 0 ==> 0 <= j < count
  {
    if k == 0 then i else NextIndex(Rotate(i, k - 1, count), count)
  }

  /** Up to a full cycle, `k` steps from an index in range advance it by `k`, wrapping once. */
  lemma {:induction false} RotateWraps(i: int, k: nat, count: nat)
    requires 0 <= i < count && k <= count
    ensures Rotate(i, k, count) == if i + k < count then i + k else i + k - count
  {
    if k > 0 {
      RotateWraps(i, k - 1, count);
    }
  }

  /** After as many steps as there are banners the carousel is back where it started. */
  lemma FullCycleReturns(i: int, count: nat)
    requires 0 <= i < count
    ensures Rotate(i, count, count) == i
  {
    RotateWraps(i, count, count);
  }

  /** Within one cycle every banner is shown. */
  lemma CycleVisitsEvery(i: int, j: int, count: nat)
    requires 0 <= i < count && 0 <= j < count
    ensures exists k :: 0 <= k < count && Rotate(i, k, count) == j
  {
    var k := if i <= j then j - i else j - i + count;
    RotateWraps(i, k, count);
  }

  /** Within one cycle no banner is shown twice. */
  lemma CycleVisitsOnce(i: int, k1: nat, k2: nat, count: nat)
    requires 0 <= i < count && k1 < k2 < count
    ensures Rotate(i, k1, count) != Rotate(i, k2, count)
  {
    RotateWraps(i, k1, count);
    RotateWraps(i, k2, count);
  }

  /**
   * The render for a list and an index: nothing for an empty list, else the
   * banner at the index, wrapped in a link when it has a truthy `link_url`.
   * Reading past the end fails.
   */
  function RenderOf(banners: seq<Banner>, index: int): (v: View)
    ensures banners == [] <==> v == Nothing
    ensures banners != [] && 0 <= index < |banners| ==> v == Show(banners[index], Truthy(banners[index].linkUrl))
    ensures v == RenderFailure <==> banners != [] && !(0 <= index < |banners|)
  {
    if |banners| == 0 then Nothing
    else if 0 <= index < |banners| then Show(banners[index], Truthy(banners[index].linkUrl))
    else RenderFailure
  }

  class Carousel {
    const position: string
    var banners: seq<Banner>
    var currentIndex: int

    constructor (position: string)
      ensures this.position == position && banners == [] && currentIndex == 0
    {
      this.position := position;
      banners := [];
      currentIndex := 0;
    }

    /** `loadBanners()`: the active banners of this position, newest first; the index is kept. */
    method Load(table: seq<Banner>, fails: bool)
      modifies this`banners
      ensures banners == GetBanners(table, Some(position), true, fails)
      ensures currentIndex == old(currentIndex)
    {
      banners := GetBanners(table, Some(position), true, fails);
    }

    /** The rotation timer exists only while more than one banner is loaded. */
    predicate TimerRunning()
      reads this
    {
      |banners| > 1
    }

    /** A timer tick. */
    method Tick()
      requires TimerRunning()
      modifies this`currentIndex
      ensures currentIndex == NextIndex(old(currentIndex), |banners|)
      ensures 0 <= currentIndex < |banners|
    {
      currentIndex := (currentIndex + 1) % |banners|;
    }

    /** A click on the indicator at `idx`; indicators exist only while more than one banner is loaded. */
    method Select(idx: int)
      requires TimerRunning() && 0 <= idx < |banners|
      modifies this`currentIndex
      ensures currentIndex == idx
    {
      currentIndex := idx;
    }

    /** What the component renders in its current state. */
    function Render(): (v: View)
      reads this
      ensures v == RenderOf(banners, currentIndex)
      ensures 0 <= currentIndex < |banners| ==> v.Show? && v.banner in banners
    {
      RenderOf(banners, currentIndex)
    }
  }

  /** Every shown banner is an active banner of the carousel's position. */
  lemma ShownBannerIsActiveHere(table: seq<Banner>, position: string, b: Banner)
    requires position != ""
    requires b in GetBanners(table, Some(position), true, false)
    ensures b in table && b.active && b.position == position
  {
    ListedBanners(table, Some(position), true, b);
  }

  /**
   * A reload keeps the index, so one that shrinks the list can leave it past
   * the end and the render fails. When a single banner is left no timer runs
   * and no indicator is shown, so nothing brings the index back.
   */
  lemma ShrinkingReloadOutrunsIndex(b1: Banner, b2: Banner, b3: Banner)
    ensures RenderOf([b1, b2, b3], 2).Show?
    ensures RenderOf([b1], 2) == RenderFailure && !(|[b1]| > 1)
  {
  }
}
