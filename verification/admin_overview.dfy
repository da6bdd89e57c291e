/** The request body the admin overview sends to create an agent from the
    creation form. */
module AdminOverview {

  import opened Json
  import Common

  /** The form's pricing configuration, when one was filled in. */
  datatype PricingConfig = PricingConfig(plans: seq<string>, prices: map<string, Json>,
                                         currency: Json, billingCycle: Json)

  /** The creation form: its plain fields, and the pricing configuration
      (`None` when it is missing or falsy). */
  datatype CreateForm = CreateForm(fields: map<string, Json>, config: Common.Option<PricingConfig>)

  /** The keys the payload sets itself, and the ones it removes. */
  const SetKeys: set<string> := {"url", "pricingModel", "pricing"}
  const DroppedKeys: set<string> := {"agentUrl", "pricingConfig"}

  /** One subscription plan of the payload. */
  function PlanObject(c: PricingConfig, name: string): (plan: Json)
    ensures plan.Obj? && plan.fields.Keys == {"name", "price", "currency", "billingCycle"}
    ensures plan.fields["name"] == Str(name)
    ensures plan.fields["price"] == (if Truthy(Get(c.prices, name)) then c.prices[name] else Obj(map[]))
    ensures plan.fields["currency"] == c.currency && plan.fields["billingCycle"] == c.billingCycle
  {
    Obj(map["name" := Str(name), "price" := Or(Get(c.prices, name), Obj(map[])),
            "currency" := c.currency, "billingCycle" := c.billingCycle])
  }

  /** The `pricing` value of the payload. */
  function PricingValue(f: CreateForm): Json
  {
    match f.config
    case Some(c) =>
      Obj(map["type" := Str("Subscription"),
              "plans" := Arr(seq(|c.plans|, i requires 0 <= i < |c.plans| => PlanObject(c, c.plans[i])))])
    case None =>
      var pricing := Get(f.fields, "pricing");
      Obj(map["type" := Str(if pricing == Str("Free") then "Free" else "Paid"),
              "plans" := Arr([pricing])])
  }

  /** The payload of `handleCreateApp`. */
  function CreatePayload(f: CreateForm): (p: map<string, Json>)
    ensures "agentUrl" !in p && "pricingConfig" !in p
    ensures "url" in p && p["url"] == Get(f.fields, "agentUrl")
    ensures "pricingModel" in p && p["pricingModel"] == Get(f.fields, "pricing")
    ensures "pricing" in p && p["pricing"] == PricingValue(f)
  {
    var spread := f.fields + map["url" := Get(f.fields, "agentUrl"),
                                 "pricingModel" := Get(f.fields, "pricing"),
                                 "pricing" := PricingValue(f)];
    spread - DroppedKeys
  }

  /** Every other form field is copied unchanged, and the payload has no
      keys beyond the form's and the three it sets. */
  lemma PayloadCopiesFields(f: CreateForm)
    ensures var p := CreatePayload(f);
      && (forall k :: k in f.fields && k !in SetKeys && k !in DroppedKeys ==> k in p && p[k] == f.fields[k])
      && (forall k :: k in p ==> k in f.fields || k in SetKeys)
  {
  }

  /** With a pricing configuration, the payload lists one subscription plan
      per configured name, in order, each with the configuration's currency
      and billing cycle, and a price of `{}` where none is configured. */
  lemma SubscriptionPlans(f: CreateForm)
    requires f.config.Some?
    ensures var pricing := CreatePayload(f)["pricing"];
      var c := f.config.value;
      && pricing.Obj? && pricing.fields["type"] == Str("Subscription")
      && pricing.fields["plans"].Arr?
      && |pricing.fields["plans"].items| == |c.plans|
      && forall i :: 0 <= i < |c.plans| ==>
           var plan := pricing.fields["plans"].items[i];
           && plan.Obj? && plan.fields["name"] == Str(c.plans[i])
           && plan.fields["currency"] == c.currency && plan.fields["billingCycle"] == c.billingCycle
           && (!Truthy(Get(c.prices, c.plans[i])) ==> plan.fields["price"] == Obj(map[]))
  {
  }

  /** Without one, the single plan is the pricing choice itself, of type
      'Free' exactly when that choice is 'Free'. */
  lemma SimplePricing(f: CreateForm)
    requires f.config.None?
    ensures var pricing := CreatePayload(f)["pricing"];
      && pricing.Obj?
      && (pricing.fields["type"] == Str("Free") <==> Get(f.fields, "pricing") == Str("Free"))
      && (pricing.fields["type"] != Str("Free") ==> pricing.fields["type"] == Str("Paid"))
      && pricing.fields["plans"] == Arr([Get(f.fields, "pricing")])
  {
  }
}
