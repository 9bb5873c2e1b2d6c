/**
 * The packages dialog of a service: one card per plan, each with a button
 * that goes to the plan's own call to action when it has one, and otherwise
 * to a WhatsApp chat whose first message names the service and the plan.
 * `encodeURIComponent` is a parameter.
 */
module PackagesModal {
  import opened Wrappers
  import JsLib

  const WhatsAppNumber := "55333201442"

  /** The chat link's fixed start: the WhatsApp number and the `text` parameter. */
  const WhatsAppPrefix := "https://wa.me/" + WhatsAppNumber + "?text="

  const DefaultButtonText := "Hablar por WhatsApp"

  datatype Cta = Cta(title: string, url: string)

  datatype Plan = Plan(name: string, price: string, highlights: seq<string>, cta: Option<Cta>)

  const MessageStart := "Hola \U{1F44B}, vi los paquetes de *"
  const MessageMiddle := "* y me interesa el plan *"
  const MessageEnd := "*. ¿Me compartes detalles y forma de pago?"

  /** The chat's first message: greeting, the service title and the plan name, each in WhatsApp bold. */
  function WhatsAppMessage(serviceTitle: string, planName: string): (msg: string)
    ensures JsLib.StartsWith(msg, MessageStart) && JsLib.EndsWith(msg, MessageEnd)
    ensures JsLib.OccursAt(msg, serviceTitle, |MessageStart|)
    ensures JsLib.OccursAt(msg, planName, |MessageStart| + |serviceTitle| + |MessageMiddle|)
  {
    var msg := MessageStart + serviceTitle + MessageMiddle + planName + MessageEnd;
    assert msg[..|MessageStart|] == MessageStart;
    assert msg[|msg| - |MessageEnd|..] == MessageEnd;
    assert msg[|MessageStart|..|MessageStart| + |serviceTitle|] == serviceTitle;
    var p := |MessageStart| + |serviceTitle| + |MessageMiddle|;
    assert msg[p..p + |planName|] == planName;
    msg
  }

  /** `buildWhatsAppUrl`: the fixed chat prefix followed by the encoded message. */
  function BuildWhatsAppUrl(serviceTitle: string, planName: string, encode: string -> string): (url: string)
    ensures JsLib.StartsWith(url, WhatsAppPrefix)
    ensures url[|WhatsAppPrefix|..] == encode(WhatsAppMessage(serviceTitle, planName))
  {
    var url := WhatsAppPrefix + encode(WhatsAppMessage(serviceTitle, planName));
    assert url[..|WhatsAppPrefix|] == WhatsAppPrefix;
    url
  }

  /** With an encoding that can be undone, the link gives back the message naming the service and the plan. */
  lemma WhatsAppUrlDecodes(serviceTitle: string, planName: string, encode: string -> string, decode: string -> string)
    requires forall m :: decode(encode(m)) == m
    ensures decode(BuildWhatsAppUrl(serviceTitle, planName, encode)[|WhatsAppPrefix|..]) == WhatsAppMessage(serviceTitle, planName)
  {
  }

  /** `plan.cta?.url || buildWhatsAppUrl(title, plan.name)`. */
  function PlanHref(title: string, plan: Plan, encode: string -> string): (href: string)
    ensures plan.cta.Some? && plan.cta.value.url != "" ==> href == plan.cta.value.url
    ensures plan.cta.None? || plan.cta.value.url == "" ==> href == BuildWhatsAppUrl(title, plan.name, encode)
  {
    if plan.cta.Some? && plan.cta.value.url != "" then plan.cta.value.url else BuildWhatsAppUrl(title, plan.name, encode)
  }

  /** `plan.cta?.title || 'Hablar por WhatsApp'`. */
  function PlanButtonText(plan: Plan): (text: string)
    ensures text != ""
    ensures plan.cta.Some? && plan.cta.value.title != "" ==> text == plan.cta.value.title
    ensures plan.cta.None? || plan.cta.value.title == "" ==> text == DefaultButtonText
  {
    if plan.cta.Some? && plan.cta.value.title != "" then plan.cta.value.title else DefaultButtonText
  }

  /** One rendered plan. */
  datatype PlanCard = PlanCard(name: string, price: string, highlights: seq<string>, href: string, buttonText: string)

  function Card(title: string, plan: Plan, encode: string -> string): PlanCard {
    PlanCard(plan.name, plan.price, plan.highlights, PlanHref(title, plan, encode), PlanButtonText(plan))
  }

  /** `plans.map(...)`: one card per plan, in the plans' order. */
  function Cards(title: string, plans: seq<Plan>, encode: string -> string): (cards: seq<PlanCard>)
    ensures |cards| == |plans|
    ensures forall i :: 0 <= i < |plans| ==> cards[i] == Card(title, plans[i], encode)
  {
    if plans == [] then [] else [Card(title, plans[0], encode)] + Cards(title, plans[1..], encode)
  }

  /** A plan without a usable call to action sends to a WhatsApp chat with the default button text. */
  lemma FallbackIsWhatsApp(title: string, plans: seq<Plan>, encode: string -> string, i: int)
    requires 0 <= i < |plans| && plans[i].cta.None?
    ensures JsLib.StartsWith(Cards(title, plans, encode)[i].href, WhatsAppPrefix)
    ensures Cards(title, plans, encode)[i].buttonText == DefaultButtonText
  {
  }

  /** What the dialog shows: nothing while closed; otherwise the title, the subtitle when truthy, and the cards. */
  datatype View = Hidden | Shown(title: string, subtitle: Option<string>, cards: seq<PlanCard>)

  function Render(open: bool, title: string, subtitle: Option<string>, plans: seq<Plan>, encode: string -> string): (v: View)
    ensures !open <==> v == Hidden
    ensures v.Shown? ==> (v.subtitle.Some? <==> subtitle.Some? && subtitle.value != "")
    ensures v.Shown? ==> v.title == title && |v.cards| == |plans|
    ensures v.Shown? && v.subtitle.Some? ==> v.subtitle == subtitle
    ensures v.Shown? ==> forall i :: 0 <= i < |plans| ==> v.cards[i] == Card(title, plans[i], encode)
  {
    if !open then Hidden
    else Shown(title, if subtitle.Some? && subtitle.value != "" then subtitle else None, Cards(title, plans, encode))
  }
}
