/** The response agent of the three-agent script (`generate_response`): a rule
    table over the lower-cased question and context, the first matching rule
    deciding a lead-in, an excerpt of the context and a tail. */
module RuleResponder {
  import opened Text

  const NoInformation: string :=
    "I don't have enough information to answer that question. Please try asking about Apple products, pricing, or specifications."

  const ProductPricingLead: string := "Based on the information I have: "
  const ProductPricingTail: string := "... For specific pricing details, please refer to the context above."
  const PricingLead: string := "Here's what I found about pricing: "
  const SpecificationsLead: string := "Here are the specifications and features I found: "
  const AppleLead: string := "Here's what I know about Apple products: "
  const GeneralLead: string := "Based on the available information: "
  const GeneralTail: string := "... Is there something specific about Apple products you'd like to know?"
  const Ellipsis: string := "..."

  /** The branch of `generate_response` that answers. */
  datatype Rule =
    | NoContext
    | IPhonePricing
    | MacPricing
    | Pricing
    | Specifications
    | AppleProducts
    | General

  predicate AsksPrice(userInput: string) {
    Contains(Lower(userInput), "price") || Contains(Lower(userInput), "cost")
  }

  predicate AsksSpecifications(userInput: string) {
    Contains(Lower(userInput), "spec") || Contains(Lower(userInput), "feature")
  }

  predicate AsksApple(userInput: string) {
    Contains(Lower(userInput), "apple")
  }

  /** First match wins: price or cost, then spec or feature, then apple, then the
      default; inside the price rule the context decides between the products. */
  function Choose(context: string, userInput: string): Rule {
    if context == "" then NoContext
    else if AsksPrice(userInput) then
      if Contains(Lower(context), "iphone") then IPhonePricing
      else if Contains(Lower(context), "mac") then MacPricing
      else Pricing
    else if AsksSpecifications(userInput) then Specifications
    else if AsksApple(userInput) then AppleProducts
    else General
  }

  /** How many leading characters of the context a rule quotes. */
  function Width(rule: Rule): nat {
    if rule == IPhonePricing || rule == MacPricing then 200 else 300
  }

  function Lead(rule: Rule): string {
    match rule
    case NoContext => ""
    case IPhonePricing => ProductPricingLead
    case MacPricing => ProductPricingLead
    case Pricing => PricingLead
    case Specifications => SpecificationsLead
    case AppleProducts => AppleLead
    case General => GeneralLead
  }

  function Tail(rule: Rule): string {
    match rule
    case NoContext => ""
    case IPhonePricing => ProductPricingTail
    case MacPricing => ProductPricingTail
    case General => GeneralTail
    case _ => Ellipsis
  }

  /** The text a rule produces: the fixed message, or lead-in, excerpt and tail. */
  function Render(rule: Rule, context: string): string {
    if rule == NoContext then NoInformation
    else Lead(rule) + Head(context, Width(rule)) + Tail(rule)
  }

  /** `generate_response(context, user_input)`. */
  function RuleResponse(context: string, userInput: string): string {
    Render(Choose(context, userInput), context)
  }

  /** An empty context gets the fixed message whatever the question. */
  lemma EmptyContextReply(userInput: string)
    ensures RuleResponse("", userInput) == NoInformation
    ensures forall other :: RuleResponse("", other) == RuleResponse("", userInput)
  {
  }

  /** Every reply to a non-empty context quotes its first 200 or 300 characters
      unchanged (not lower-cased), between a lead-in and a tail; it quotes 200
      exactly when the question asks for a price and the context mentions an
      iPhone or a Mac in any case. */
  lemma Excerpt(context: string, userInput: string) returns (lead: string, n: nat, tail: string)
    requires context != ""
    ensures RuleResponse(context, userInput) == lead + Head(context, n) + tail
    ensures n == 200 || n == 300
    ensures Head(context, n) <= context && |Head(context, n)| == Min(n, |context|)
    ensures n == 200 <==>
              AsksPrice(userInput) && (Contains(Lower(context), "iphone") || Contains(Lower(context), "mac"))
  {
    var rule := Choose(context, userInput);
    lead, n, tail := Lead(rule), Width(rule), Tail(rule);
  }

  /** A question asking for a price gets the same reply as any other question
      asking for a price, whatever else the two mention. */
  lemma PriceRuleWins(context: string, u1: string, u2: string)
    requires AsksPrice(u1) && AsksPrice(u2)
    ensures RuleResponse(context, u1) == RuleResponse(context, u2)
  {
  }

  /** In the price rule, a context naming an iPhone and one naming a Mac are
      answered alike: the lead-in, the first 200 characters and the pricing tail. */
  lemma ProductPricingAlike(context: string, userInput: string)
    requires context != "" && AsksPrice(userInput)
    requires Contains(Lower(context), "iphone") || Contains(Lower(context), "mac")
    ensures RuleResponse(context, userInput) == ProductPricingLead + Head(context, 200) + ProductPricingTail
    ensures Render(IPhonePricing, context) == Render(MacPricing, context)
  {
  }

  /** The question is read case-insensitively: lower-casing it first changes nothing. */
  lemma QuestionCaseInsensitive(context: string, userInput: string)
    ensures RuleResponse(context, userInput) == RuleResponse(context, Lower(userInput))
  {
    assert Choose(context, userInput) == Choose(context, Lower(userInput)) by {
      LowerIdempotent(userInput);
    }
  }

  /** Rules below the price rule answer only when no rule above them matches. */
  lemma RulePrecedence(context: string, userInput: string)
    requires context != ""
    ensures Choose(context, userInput) in {IPhonePricing, MacPricing, Pricing} <==> AsksPrice(userInput)
    ensures Choose(context, userInput) == Specifications <==>
              !AsksPrice(userInput) && AsksSpecifications(userInput)
    ensures Choose(context, userInput) == AppleProducts <==>
              !AsksPrice(userInput) && !AsksSpecifications(userInput) && AsksApple(userInput)
    ensures Choose(context, userInput) == General <==>
              !AsksPrice(userInput) && !AsksSpecifications(userInput) && !AsksApple(userInput)
  {
  }
}
