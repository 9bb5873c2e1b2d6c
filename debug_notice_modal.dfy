/**
 * The once-per-session demo notice: enabled in development or when the public
 * flag asks for it, shown on mount unless this browser session already
 * dismissed it, locking the page scroll while open, and closed by its button
 * or the Escape key, which also records the dismissal. Session storage is a
 * map that may be unavailable (every access then throws); the environment
 * variables are parameters.
 */
module DebugNoticeModal {
  import opened Wrappers

  const SessionKey := "debugNoticeDismissedSession"
  const Dismissed := "1"

  /** `isDev || flag === 'true'`. */
  predicate Enabled(nodeEnv: Option<string>, flag: Option<string>) {
    nodeEnv == Some("development") || flag == Some("true")
  }

  /**
   * `shouldShowNoticeThisSession`: false unless enabled; then true unless the
   * stored value is exactly `'1'`; true as well when reading storage throws.
   */
  predicate ShouldShow(enabled: bool, storageAvailable: bool, storage: map<string, string>) {
    enabled && (!storageAvailable || SessionKey !in storage || storage[SessionKey] != Dismissed)
  }

  /** The notice and the page state it touches. */
  class Notice {
    const enabled: bool
    /** Whether `sessionStorage` can be used; when not, `getItem` and `setItem` throw. */
    const storageAvailable: bool
    var storage: map<string, string>
    var open: bool
    /** `document.body.style.overflow`. */
    var bodyOverflow: string
    /** The overflow saved by the scroll-lock effect while the notice is open. */
    var savedOverflow: Option<string>

    /** The scroll lock is engaged exactly while the notice is open. */
    ghost predicate Valid()
      reads this
    {
      (open <==> savedOverflow.Some?) && (open ==> bodyOverflow == "hidden")
    }

    constructor (nodeEnv: Option<string>, flag: Option<string>, storageAvailable: bool,
                 storage: map<string, string>, bodyOverflow: string)
      ensures enabled == Enabled(nodeEnv, flag) && this.storageAvailable == storageAvailable
      ensures this.storage == storage && this.bodyOverflow == bodyOverflow && !open && savedOverflow == None
      ensures Valid()
    {
      enabled := Enabled(nodeEnv, flag);
      this.storageAvailable := storageAvailable;
      this.storage := storage;
      open := false;
      this.bodyOverflow := bodyOverflow;
      savedOverflow := None;
    }

    /** The mount effect: open when the notice should show this session, then lock the page scroll. */
    method Mount()
      requires Valid() && !open
      modifies this
      ensures Valid()
      ensures open == ShouldShow(enabled, storageAvailable, storage)
      ensures open ==> savedOverflow == Some(old(bodyOverflow))
      ensures !open ==> bodyOverflow == old(bodyOverflow)
      ensures storage == old(storage)
    {
      if ShouldShow(enabled, storageAvailable, storage) {
        open := true;
        savedOverflow := Some(bodyOverflow);
        bodyOverflow := "hidden";
      }
    }

    /** `onClose`: remember the dismissal (a failing write is ignored), close, and restore the saved overflow. */
    method OnClose()
      requires Valid()
      modifies this
      ensures Valid() && !open
      ensures storageAvailable ==> storage == old(storage)[SessionKey := Dismissed]
      ensures !storageAvailable ==> storage == old(storage)
      ensures old(open) ==> bodyOverflow == old(savedOverflow).value
      ensures !old(open) ==> bodyOverflow == old(bodyOverflow)
    {
      if storageAvailable {
        storage := storage[SessionKey := Dismissed];
      }
      if open {
        bodyOverflow := savedOverflow.value;
        savedOverflow := None;
      }
      open := false;
    }

    /** The keydown listener, installed only while open: Escape closes. */
    method KeyDown(key: string)
      requires Valid()
      modifies this
      ensures Valid()
      ensures !(old(open) && key == "Escape") ==> open == old(open) && storage == old(storage) && bodyOverflow == old(bodyOverflow)
      ensures old(open) && key == "Escape" ==> !open && bodyOverflow == old(savedOverflow).value
      ensures old(open) && key == "Escape" ==>
                storage == (if storageAvailable then old(storage)[SessionKey := Dismissed] else old(storage))
      ensures old(open) && key == "Escape" && storageAvailable ==> !ShouldShow(enabled, storageAvailable, storage)
    {
      if open && key == "Escape" {
        OnClose();
      }
    }
  }

  /** A disabled notice never shows, whatever the storage holds. */
  lemma DisabledNeverShows(storageAvailable: bool, storage: map<string, string>)
    ensures !ShouldShow(false, storageAvailable, storage)
  {
  }

  /**
   * Opened and closed once with working storage, the notice does not show
   * again in the same session, and the page's overflow is what it was.
   */
  method ShownOncePerSession(nodeEnv: Option<string>, flag: Option<string>, storage: map<string, string>, overflow: string)
      returns (first: Notice, second: Notice)
    ensures fresh(first) && fresh(second)
    ensures !first.open && first.bodyOverflow == overflow
    ensures !ShouldShow(second.enabled, second.storageAvailable, second.storage) && !second.open
  {
    first := new Notice(nodeEnv, flag, true, storage, overflow);
    first.Mount();
    first.OnClose();
    second := new Notice(nodeEnv, flag, true, first.storage, first.bodyOverflow);
    second.Mount();
  }
}
