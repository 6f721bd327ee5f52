/**
 * The chat widget's intent responder: the canned answer table, the term
 * matcher HAS and getBotResponse, which normalises the message and returns
 * the answer of the first topic rule that matches it.
 */
module ChatBot {
  import opened Text

  /** The keys of the botResponses table. */
  datatype Topic =
    | Default
    | Services
    | Pricing
    | Comfort
    | Contact
    | Emergency
    | Financing
    | HeatPumps
    | Furnaces
    | AirConditioning
    | WaterHeaters
    | IndoorAir
    | Radiant
    | Maintenance
    | About
    | Location

  /** The botResponses table: the canned answer of each topic. */
  function Response(t: Topic): string {
    match t
    case Default =>
      "Hi! I'm here to help you with questions about Hometown Heating services. You can ask me about our services, pricing, Comfort Club, contact info, or specific equipment like furnaces, heat pumps, and air conditioning."
    case Services =>
      "We offer furnace installation/repair, air conditioning, heat pumps, water heaters, indoor air quality solutions, and radiant floor heating. What specific service are you interested in?"
    case Pricing =>
      "Our pricing varies by service and equipment. We offer free quotes and flexible financing through our FinanceIt program. Would you like me to connect you with our team for a personalized quote?"
    case Comfort =>
      "Our Comfort Club membership includes priority service, annual maintenance, 25% off parts, no diagnostic fees, and 24/7 phone support starting at $199 for a single system. It's a great way to protect your investment! You can apply on our Comfort Club page."
    case Contact =>
      "You can reach us at 613-925-1039 or tom@hometownheating.ca. We're located in Prescott, Ontario and offer 24/7 emergency service. Visit our Contact page for more details or to send us a message."
    case Emergency =>
      "For emergency service, please call us immediately at 613-925-1039. We provide 24/7 emergency service with no overtime charges for Comfort Club members!"
    case Financing =>
      "We offer flexible financing through our FinanceIt program with competitive rates, quick approval, and terms up to 84 months. No down payment required! Visit our Financing page to learn more or call 613-925-1039."
    case HeatPumps =>
      "Heat pumps are an energy-efficient solution for year-round heating and cooling! We offer split system heat pumps, packaged units, geothermal systems, and ductless heat pumps. They're perfect for homes with or without existing ductwork. Visit our Services page to learn more!"
    case Furnaces =>
      "We install and service high-efficiency gas, propane, and electric furnaces from trusted brands. Our furnaces offer up to 96% AFUE efficiency with professional installation, comprehensive warranties, and 24/7 support. Check out our Services page for details!"
    case AirConditioning =>
      "We provide air conditioning installation, repair, and maintenance services. Our AC systems are energy-efficient and come with professional installation and comprehensive warranties."
    case WaterHeaters =>
      "We install and service both traditional tank water heaters and modern tankless systems. Whether you need a replacement or a new installation, we\U{2019}ve got you covered!"
    case IndoorAir =>
      "We offer air purification, humidity control, ventilation (HRV/ERV), and filtration to keep your indoor air clean and healthy."
    case Radiant =>
      "Radiant floor heating provides even, quiet, energy-efficient warmth. Great for bathrooms, kitchens, or whole-home installs."
    case Maintenance =>
      "Regular maintenance keeps your system efficient and reliable. We handle filter changes, safety checks, cleaning, and optimization. Join our Comfort Club for priority service and discounts!"
    case About =>
      "Hometown Heating is your local HVAC expert serving Prescott, Ontario and surrounding areas, with 24/7 emergency service."
    case Location =>
      "We\U{2019}re based in Prescott, Ontario and serve the surrounding areas. Call 613-925-1039 or see the Contact page to confirm your location."
  }

  /**
   * A match term: a plain substring, or the regular expression
   * /\b stem (optionalSuffix)? \b/ (the source's /\bac\b/ and /\bservice(s)?\b/).
   */
  datatype Term = Phrase(text: string) | WordPattern(stem: string, optionalSuffix: string)

  predicate Matches(m: string, t: Term) {
    match t
    case Phrase(p) => Includes(m, p)
    case WordPattern(stem, suffix) => TestWord(m, stem, suffix)
  }

  /** HAS: some term of the list matches the message. */
  function Has(m: string, terms: seq<Term>): (b: bool)
    ensures b <==> exists i :: 0 <= i < |terms| && Matches(m, terms[i])
  {
    terms != [] && (Matches(m, terms[0]) || Has(m, terms[1..]))
  }

  datatype Rule = Rule(terms: seq<Term>, topic: Topic)

  /** The conditionals of getBotResponse, in the order they are tried. */
  const Rules: seq<Rule> := [
    Rule([Phrase("heat pump"), Phrase("heatpump"), Phrase("heat-pump"), Phrase("geothermal"), Phrase("ductless")],
         HeatPumps),
    Rule([Phrase("furnace"), Phrase("furnaces"), Phrase("gas furnace"), Phrase("propane furnace")],
         Furnaces),
    Rule([Phrase("air conditioning"), Phrase("air condition"), Phrase("cooling"), WordPattern("ac", "")],
         AirConditioning),
    Rule([Phrase("water heater"), Phrase("hot water"), Phrase("tankless"), Phrase("water heating")],
         WaterHeaters),
    Rule([Phrase("indoor air"), Phrase("air quality"), Phrase("air purif"), Phrase("ventilation"), Phrase("hrv"), Phrase("erv")],
         IndoorAir),
    Rule([Phrase("radiant"), Phrase("floor heating"), Phrase("radiant floor")],
         Radiant),
    Rule([Phrase("comfort club"), Phrase("comfort-club"), Phrase("membership")],
         Comfort),
    Rule([Phrase("maintenance"), Phrase("service plan"), Phrase("annual service"), Phrase("tune up"), Phrase("tune-up")],
         Maintenance),
    Rule([Phrase("price"), Phrase("cost"), Phrase("quote"), Phrase("estimate"), Phrase("how much")],
         Pricing),
    Rule([Phrase("financing"), Phrase("payment"), Phrase("financeit"), Phrase("finance"), Phrase("loan")],
         Financing),
    Rule([Phrase("contact"), Phrase("phone"), Phrase("email"), Phrase("call"), Phrase("reach")],
         Contact),
    Rule([Phrase("location"), Phrase("address"), Phrase("service area"), Phrase("prescott"), Phrase("where are you")],
         Location),
    Rule([Phrase("emergency"), Phrase("urgent"), Phrase("broke"), Phrase("not working"), Phrase("problem")],
         Emergency),
    Rule([Phrase("about"), Phrase("who are you"), Phrase("company"), Phrase("business")],
         About),
    Rule([WordPattern("service", "s"), Phrase("what do you"), Phrase("offerings")],
         Services)
  ]

  /** Every rule answers with a topic of its own, never with the fallback. */
  predicate RulesAvoidDefault() {
    forall k :: 0 <= k < |Rules| ==> Rules[k].topic != Default
  }

  /** Every term needs at least one character of the message to match. */
  predicate TermNonEmpty(t: Term) {
    match t
    case Phrase(p) => p != []
    case WordPattern(stem, _) => stem != []
  }

  predicate TermsNonEmpty(terms: seq<Term>) {
    forall i :: 0 <= i < |terms| ==> TermNonEmpty(terms[i])
  }

  predicate RulesHaveNonEmptyTerms() {
    forall k :: 0 <= k < |Rules| ==> TermsNonEmpty(Rules[k].terms)
  }

  lemma RulesNeverDefault()
    ensures RulesAvoidDefault()
  {
  }

  lemma RulesTermsNonEmpty()
    ensures RulesHaveNonEmptyTerms()
  {
    forall k | 0 <= k < |Rules| ensures TermsNonEmpty(Rules[k].terms) {
      RuleTermsNonEmpty(k);
    }
  }

  /**
   * The same fact for one rule. Splitting on the index hands the solver one
   * literal rule per case, which keeps each obligation small.
   */
  lemma RuleTermsNonEmpty(k: nat)
    requires k < |Rules|
    ensures TermsNonEmpty(Rules[k].terms)
  {
    if k == 0 { }
    else if k == 1 { }
    else if k == 2 { }
    else if k == 3 { }
    else if k == 4 { }
    else if k == 5 { }
    else if k == 6 { }
    else if k == 7 { }
    else if k == 8 { }
    else if k == 9 { }
    else if k == 10 { }
    else if k == 11 { }
    else if k == 12 { }
    else if k == 13 { }
    else {
      assert k == 14;
    }
  }

  /** The index of the first rule whose terms match m, or |rules| when none does. */
  function FirstMatch(m: string, rules: seq<Rule>): (k: nat)
    ensures k <= |rules|
    ensures forall j :: 0 <= j < k ==> !Has(m, rules[j].terms)
    ensures k < |rules| ==> Has(m, rules[k].terms)
  {
    if rules == [] || Has(m, rules[0].terms) then 0 else 1 + FirstMatch(m, rules[1..])
  }

  /** The topic getBotResponse answers for an already normalised message. */
  function Classify(m: string): Topic {
    var k := FirstMatch(m, Rules);
    if k < |Rules| then Rules[k].topic else Default
  }

  /** The message as the rules see it: lowercased, then trimmed. */
  function Normalize(s: string): (r: string)
    ensures r != [] ==> !IsWhitespace(r[0]) && !IsWhitespace(r[|r| - 1])
  {
    Trim(Lower(s))
  }

  /** getBotResponse: total, and always one of the canned answers. */
  function GetBotResponse(userMessage: string): (r: string)
    ensures exists t :: r == Response(t)
  {
    Response(Classify(Normalize(userMessage)))
  }

  // ---- Normalisation ----

  lemma NormalizeIdempotent(s: string)
    ensures Normalize(Normalize(s)) == Normalize(s)
  {
    LowerTrimCommute(Lower(s));
    LowerIdempotent(s);
    TrimIdempotent(Lower(s));
  }

  /** Matching sees only the lowercased, trimmed message. */
  lemma NormalizedInputSameResponse(s: string)
    ensures GetBotResponse(Lower(Trim(s))) == GetBotResponse(s)
    ensures GetBotResponse(Normalize(s)) == GetBotResponse(s)
  {
    LowerIdempotent(Trim(s));
    LowerTrimCommute(s);
    TrimIdempotent(Lower(s));
    NormalizeIdempotent(s);
  }

  lemma CaseInsensitive(s: string)
    ensures GetBotResponse(Lower(s)) == GetBotResponse(s)
  {
    LowerIdempotent(s);
  }

  /** Whitespace around the message never changes the answer. */
  lemma SurroundingWhitespaceIgnored(p: string, s: string, q: string)
    requires IsBlank(p) && IsBlank(q)
    ensures GetBotResponse(p + s + q) == GetBotResponse(s)
  {
    LowerConcat(p + s, q);
    LowerConcat(p, s);
    LowerOfBlank(p);
    LowerOfBlank(q);
    TrimPadding(p, Lower(s), q);
  }

  // ---- Precedence and fallback ----

  /** A rule that matches, with no earlier rule matching, is the one FirstMatch finds. */
  lemma FirstMatchIs(m: string, rules: seq<Rule>, k: nat)
    requires k < |rules|
    requires Has(m, rules[k].terms)
    requires forall j :: 0 <= j < k ==> !Has(m, rules[j].terms)
    ensures FirstMatch(m, rules) == k
  {
  }

  /** The topic of the first matching rule is the one Classify picks. */
  lemma ClassifyByRule(m: string, k: nat)
    requires k < |Rules|
    requires Has(m, Rules[k].terms)
    requires forall j :: 0 <= j < k ==> !Has(m, Rules[j].terms)
    ensures Classify(m) == Rules[k].topic
  {
    FirstMatchIs(m, Rules, k);
  }

  /** The answer is that of the first matching rule: later rules cannot override it. */
  lemma FirstMatchWins(s: string, k: nat)
    requires k < |Rules|
    requires Has(Normalize(s), Rules[k].terms)
    requires forall j :: 0 <= j < k ==> !Has(Normalize(s), Rules[j].terms)
    ensures GetBotResponse(s) == Response(Rules[k].topic)
  {
    ClassifyByRule(Normalize(s), k);
  }

  /** The fallback topic comes exactly when no rule matches. */
  lemma DefaultTopicIffNoMatch(m: string)
    ensures Classify(m) == Default <==> forall k :: 0 <= k < |Rules| ==> !Has(m, Rules[k].terms)
  {
    RulesNeverDefault();
  }

  /** Input that no rule matches gets botResponses.default. */
  lemma NoMatchIsDefault(s: string)
    requires forall k :: 0 <= k < |Rules| ==> !Has(Normalize(s), Rules[k].terms)
    ensures GetBotResponse(s) == Response(Default)
  {
    DefaultTopicIffNoMatch(Normalize(s));
    assert Classify(Normalize(s)) == Default;
  }

  /** Equipment rules come first: a heat-pump keyword decides the topic, whatever else m mentions. */
  lemma HeatPumpTopic(m: string)
    requires || Includes(m, "heat pump") || Includes(m, "heatpump") || Includes(m, "heat-pump")
             || Includes(m, "geothermal") || Includes(m, "ductless")
    ensures Classify(m) == HeatPumps
  {
    var terms := Rules[0].terms;
    if Includes(m, "heat pump") { assert Matches(m, terms[0]); }
    else if Includes(m, "heatpump") { assert Matches(m, terms[1]); }
    else if Includes(m, "heat-pump") { assert Matches(m, terms[2]); }
    else if Includes(m, "geothermal") { assert Matches(m, terms[3]); }
    else { assert Matches(m, terms[4]); }
    ClassifyByRule(m, 0);
  }

  lemma HeatPumpWins(s: string)
    requires var m := Normalize(s);
      || Includes(m, "heat pump") || Includes(m, "heatpump") || Includes(m, "heat-pump")
      || Includes(m, "geothermal") || Includes(m, "ductless")
    ensures GetBotResponse(s) == Response(HeatPumps)
  {
    HeatPumpTopic(Normalize(s));
  }

  /** Empty and whitespace-only messages get the default answer. */
  lemma BlankInputIsDefault(s: string)
    requires IsBlank(s)
    ensures GetBotResponse(s) == Response(Default)
  {
    LowerOfBlank(s);
    TrimEmptyIffBlank(Lower(s));
    assert Normalize(s) == [];
    RulesTermsNonEmpty();
    forall k | 0 <= k < |Rules| ensures !Has([], Rules[k].terms) {
      assert TermsNonEmpty(Rules[k].terms);
      forall i | 0 <= i < |Rules[k].terms| ensures !Matches([], Rules[k].terms[i]) {
        assert TermNonEmpty(Rules[k].terms[i]);
      }
    }
    NoMatchIsDefault(s);
  }

  /** One matching term is enough. */
  lemma HasOfMatch(m: string, terms: seq<Term>, i: nat)
    requires i < |terms| && Matches(m, terms[i])
    ensures Has(m, terms)
  {
  }

  /** A phrase longer than the message cannot occur in it. */
  lemma LongPhrasesMiss(m: string, terms: seq<Term>)
    requires forall i :: 0 <= i < |terms| ==> terms[i].Phrase? && |terms[i].text| > |m|
    ensures !Has(m, terms)
  {
  }

  /**
   * /\bac\b/: a message with "ac" as a whole word, and no heat-pump or furnace
   * term, is about air conditioning.
   */
  lemma AcWordTopic(m: string)
    requires TestWord(m, "ac", "")
    requires !Has(m, Rules[0].terms) && !Has(m, Rules[1].terms)
    ensures Classify(m) == AirConditioning
  {
    AcWordMatchesRule(m);
    forall j | 0 <= j < 2 ensures !Has(m, Rules[j].terms) {
      assert j == 0 || j == 1;
    }
    ClassifyByRule(m, 2);
  }

  /** The fourth air-conditioning term is /\bac\b/. */
  lemma AcWordMatchesRule(m: string)
    requires TestWord(m, "ac", "")
    ensures Has(m, Rules[2].terms)
  {
    assert Rules[2].terms[3] == WordPattern("ac", "");
    HasOfMatch(m, Rules[2].terms, 3);
  }

  /** The message "ac" is about air conditioning. */
  lemma AcAloneTopic(m: string)
    requires m == "ac"
    ensures Classify(m) == AirConditioning
  {
    assert WordOccursAt(m, "ac", "", 0);
    AcMissesEquipmentTerms(m);
    AcWordTopic(m);
  }

  /** Every heat-pump and furnace term is longer than "ac". */
  lemma AcMissesEquipmentTerms(m: string)
    requires m == "ac"
    ensures !Has(m, Rules[0].terms) && !Has(m, Rules[1].terms)
  {
    LongPhrasesMiss(m, Rules[0].terms);
    LongPhrasesMiss(m, Rules[1].terms);
  }

  /** "ac" alone, in any case and with any surrounding whitespace, gets the air-conditioning answer. */
  lemma AcAloneIsAirConditioning(s: string)
    requires Normalize(s) == "ac"
    ensures GetBotResponse(s) == Response(AirConditioning)
  {
    AcAloneTopic(Normalize(s));
  }

  /** The "ac" inside "back" is no whole word. */
  lemma AcInsideBackIsNoWord()
    ensures !Matches("back", WordPattern("ac", ""))
  {
    forall i | 0 <= i <= 4 ensures !WordOccursAt("back", "ac", "", i) {
      if i == 1 {
        assert !IsBoundary("back", 1);
      } else if i + 2 <= 4 {
        assert "back"[i..i + 2] != "ac";
      }
    }
  }

  /** So the air-conditioning rule as a whole does not fire on "back". */
  lemma AirConditioningRuleMissesBack()
    ensures !Has("back", Rules[2].terms)
  {
    var terms := Rules[2].terms;
    LongPhrasesMiss("back", terms[..3]);
    AcInsideBackIsNoWord();
    assert terms == terms[..3] + [terms[3]];
    forall i | 0 <= i < |terms| ensures !Matches("back", terms[i]) {
      if i < 3 { assert terms[i] == terms[..3][i]; }
    }
  }
}
