/**
 * A service card: its buttons either navigate to a URL or ask for the
 * service's packages. A packages request goes to the parent's callback when
 * one is given, otherwise opens the card's own packages dialog when the
 * service has packages, and otherwise falls back to the button's URL. The
 * (unused) Stripe checkout handler raises a loading flag for the duration of
 * the request. Navigation (`window.location.href = ...`) is recorded as the
 * last address assigned.
 */
module ServiceCard {
  import opened Wrappers
  import PackagesModal

  datatype Icon = Software | Web | Social | Licenses

  datatype Bullet = Bullet(heading: string, items: seq<string>)

  /** The only action a button can carry. */
  datatype Action = OpenPackages

  datatype Link = Link(title: string, url: Option<string>, action: Option<Action>)

  datatype Packages = Packages(subtitle: Option<string>, plans: seq<PackagesModal.Plan>)

  datatype Service = Service(
    title: string,
    tagline: string,
    icon: Option<Icon>,
    bullets: seq<Bullet>,
    tags: Option<seq<string>>,
    links: Option<seq<Link>>,
    packages: Option<Packages>)

  /** The props with their defaults filled in: icon `'software'`, no tags, no links. */
  function WithDefaults(s: Service): (r: Service)
    ensures r.icon == Some(s.icon.GetOr(Software))
    ensures r.tags == Some(s.tags.GetOr([])) && r.links == Some(s.links.GetOr([]))
    ensures r.title == s.title && r.tagline == s.tagline && r.bullets == s.bullets && r.packages == s.packages
  {
    s.(icon := Some(s.icon.GetOr(Software)), tags := Some(s.tags.GetOr([])), links := Some(s.links.GetOr([])))
  }

  /** Filling in the defaults twice changes nothing more. */
  lemma WithDefaultsIdempotent(s: Service)
    ensures WithDefaults(WithDefaults(s)) == WithDefaults(s)
  {
  }

  /** The checkout request: the price and the two return addresses on this site's origin. */
  datatype CheckoutRequest = CheckoutRequest(priceId: string, successUrl: string, cancelUrl: string)

  /** What the checkout endpoint gave back: a thrown fetch or parse, or a body with an optional `url`. */
  datatype CheckoutReply = Failed | Replied(url: Option<string>)

  class Card {
    const props: Service
    /** Whether the parent passed `onOpenPackages`. */
    const hasCallback: bool
    /** The card's own packages dialog is open. */
    var open: bool
    var loading: bool
    /** The last address assigned to `window.location.href`, if any. */
    var location: Option<string>
    /** Every service record handed to the parent's callback, in order. */
    var delegated: seq<Service>

    /** The card renders its own dialog only when the service has packages and the parent does not handle them. */
    predicate OwnsModal()
    {
      props.packages.Some? && !hasCallback
    }

    /** The card's dialog is only ever open when it is rendered at all. */
    ghost predicate Valid()
      reads this
    {
      open ==> OwnsModal()
    }

    constructor (props: Service, hasCallback: bool)
      ensures this.props == props && this.hasCallback == hasCallback
      ensures !open && !loading && location == None && delegated == []
      ensures Valid()
    {
      this.props := props;
      this.hasCallback := hasCallback;
      open := false;
      loading := false;
      location := None;
      delegated := [];
    }

    /** `handleLinkClick(action, url)`. */
    method HandleLinkClick(action: Option<Action>, url: Option<string>)
      requires Valid()
      modifies this
      ensures Valid()
      ensures loading == old(loading)
      ensures action == Some(OpenPackages) && hasCallback ==>
                delegated == old(delegated) + [WithDefaults(props)] && open == old(open) && location == old(location)
      ensures action == Some(OpenPackages) && !hasCallback && props.packages.Some? ==>
                open && delegated == old(delegated) && location == old(location)
      ensures (action.None? || (!hasCallback && props.packages.None?)) ==>
                && open == old(open) && delegated == old(delegated)
                && location == (if url.Some? && url.value != "" then url else old(location))
    {
      if action == Some(OpenPackages) {
        if hasCallback {
          delegated := delegated + [WithDefaults(props)];
          return;
        }
        if props.packages.Some? {
          open := true;
          return;
        }
      }
      if url.Some? && url.value != "" {
        location := url;
      }
    }

    /** The dialog's close button. */
    method CloseModal()
      requires Valid()
      modifies this
      ensures !open && Valid()
      ensures loading == old(loading) && location == old(location) && delegated == old(delegated)
    {
      open := false;
    }

    /** `handleCheckout` up to the request: raise the loading flag and build the request on `origin`. */
    method BeginCheckout(priceId: string, origin: string) returns (req: CheckoutRequest)
      requires Valid()
      modifies this
      ensures Valid() && loading
      ensures req == CheckoutRequest(priceId, origin + "/success", origin + "/cancel")
      ensures open == old(open) && location == old(location) && delegated == old(delegated)
    {
      loading := true;
      req := CheckoutRequest(priceId, origin + "/success", origin + "/cancel");
    }

    /** `handleCheckout` after the reply: redirect only to a returned URL, and lower the flag in every case. */
    method FinishCheckout(reply: CheckoutReply)
      requires Valid()
      modifies this
      ensures Valid() && !loading
      ensures location == (if reply.Replied? && reply.url.Some? && reply.url.value != "" then reply.url else old(location))
      ensures open == old(open) && delegated == old(delegated)
    {
      if reply.Replied? && reply.url.Some? && reply.url.value != "" {
        location := reply.url;
      }
      loading := false;
    }

    /** The card's dialog as rendered: absent unless the card owns it; then open or closed with the service's plans. */
    function Modal(encode: string -> string): (v: Option<PackagesModal.View>)
      reads this
      ensures v.Some? <==> OwnsModal()
      ensures v.Some? ==> (v.value.Hidden? <==> !open)
    {
      if OwnsModal() then
        Some(PackagesModal.Render(open, props.title, props.packages.value.subtitle, props.packages.value.plans, encode))
      else None
    }
  }

  /** A checkout always ends with the flag down, whatever the endpoint answered. */
  method Checkout(c: Card, priceId: string, origin: string, reply: CheckoutReply) returns (req: CheckoutRequest)
    requires c.Valid()
    modifies c
    ensures c.Valid() && !c.loading
    ensures req.priceId == priceId
    ensures reply.Failed? ==> c.location == old(c.location)
  {
    req := c.BeginCheckout(priceId, origin);
    c.FinishCheckout(reply);
  }
}
