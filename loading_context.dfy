/**
 * The page-loading context: a set of asset names reported as loaded, a
 * progress percentage derived from it (or forced from outside), and the
 * completion step that closes the loading screen once every required asset
 * has been reported. The 1200 ms delay before completion is the explicit
 * step `Tick`.
 */
module LoadingContext {
  import opened Wrappers

  /** The assets that must be reported before the loading screen may close. */
  const RequiredAssets: seq<string> := ["god-rays-shader", "fonts", "hero-components", "critical-images"]

  /** The progress shown after `count` distinct assets: `min(100, count / |RequiredAssets| * 100)`. */
  function AssetProgress(count: nat): (p: real)
    ensures 0.0 <= p <= 100.0
    ensures p == 100.0 <==> count >= |RequiredAssets|
    ensures count < |RequiredAssets| ==> p == 25.0 * (count as real)
  {
    var raw := (count as real) / (|RequiredAssets| as real) * 100.0;
    if 100.0 < raw then 100.0 else raw
  }

  /** More assets never show less progress. */
  lemma AssetProgressMonotone(a: nat, b: nat)
    requires a <= b
    ensures AssetProgress(a) <= AssetProgress(b)
  {
  }

  /** `min(100, max(0, p))`: a forced progress value brought back into [0, 100]. */
  function ClampProgress(p: real): (r: real)
    ensures 0.0 <= r <= 100.0
    ensures 0.0 <= p <= 100.0 ==> r == p
    ensures p < 0.0 ==> r == 0.0
    ensures 100.0 < p ==> r == 100.0
  {
    var low := if 0.0 < p then p else 0.0;
    if 100.0 < low then 100.0 else low
  }

  /** The provider's state and its three setters. */
  class LoadingProvider {
    var progress: real
    var isLoading: bool
    var isComplete: bool
    var loadedAssets: set<string>

    /** Progress always lies in [0, 100]. */
    ghost predicate Valid()
      reads this
    {
      0.0 <= progress <= 100.0
    }

    /** The completion effect has a timer pending: every required asset is in and completion has not happened. */
    predicate CompletionScheduled()
      reads this
    {
      |loadedAssets| >= |RequiredAssets| && !isComplete
    }

    constructor ()
      ensures Valid()
      ensures progress == 0.0 && isLoading && !isComplete && loadedAssets == {}
    {
      progress := 0.0;
      isLoading := true;
      isComplete := false;
      loadedAssets := {};
    }

    /** Adds `assetName` (any name, required or not) and recomputes progress from the set's size. */
    method SetAssetLoaded(assetName: string)
      requires Valid()
      modifies this
      ensures loadedAssets == old(loadedAssets) + {assetName}
      ensures progress == AssetProgress(|loadedAssets|)
      ensures isLoading == old(isLoading) && isComplete == old(isComplete)
      ensures Valid()
    {
      loadedAssets := loadedAssets + {assetName};
      progress := AssetProgress(|loadedAssets|);
    }

    /** Forces the progress to `p`, clamped to [0, 100]; nothing else changes. */
    method SetProgress(p: real)
      requires Valid()
      modifies this
      ensures progress == ClampProgress(p)
      ensures isLoading == old(isLoading) && isComplete == old(isComplete)
      ensures loadedAssets == old(loadedAssets)
      ensures Valid()
    {
      progress := ClampProgress(p);
    }

    /** Closes the loading screen: progress 100, complete, not loading; the asset set is kept. */
    method SetLoadingComplete()
      modifies this
      ensures Valid()
      ensures progress == 100.0 && isComplete && !isLoading
      ensures loadedAssets == old(loadedAssets)
      ensures !CompletionScheduled()
    {
      progress := 100.0;
      isComplete := true;
      isLoading := false;
    }

    /** The completion timer fires: completes when the effect had scheduled it, otherwise does nothing. */
    method Tick()
      modifies this
      ensures old(CompletionScheduled()) ==> Valid() && progress == 100.0 && isComplete && !isLoading
      ensures !old(CompletionScheduled()) ==> unchanged(this)
      ensures loadedAssets == old(loadedAssets)
      ensures !CompletionScheduled()
    {
      if CompletionScheduled() {
        SetLoadingComplete();
      }
    }
  }

  /** After every required asset is reported, one tick of the timer completes the load. */
  method LoadAllRequired() returns (p: LoadingProvider)
    ensures fresh(p) && p.isComplete && !p.isLoading && p.progress == 100.0
    ensures forall a :: a in p.loadedAssets <==> a in RequiredAssets
  {
    p := new LoadingProvider();
    p.SetAssetLoaded("god-rays-shader");
    p.SetAssetLoaded("fonts");
    p.SetAssetLoaded("hero-components");
    assert !p.CompletionScheduled();
    p.SetAssetLoaded("critical-images");
    assert p.loadedAssets == {"god-rays-shader", "fonts", "hero-components", "critical-images"};
    assert |p.loadedAssets| == 4;
    p.Tick();
  }

  /** `useLoading`: the provider's value inside a provider, an error outside one. */
  function UseLoading<T>(context: Option<T>): (r: Result<T, string>)
    ensures context.Some? <==> r.Ok?
    ensures context.Some? ==> r.value == context.value
    ensures context.None? ==> r.error == "useLoading must be used within a LoadingProvider"
  {
    match context
    case Some(c) => Ok(c)
    case None => Err("useLoading must be used within a LoadingProvider")
  }
}
