/** What the AI and Search policies share: service classes, the registry's listing, and cleaning of
    configured names. */
module PolicyBasics {
  import opened Common
  import opened Text

  datatype ServiceClass = Economy | Standard | Quality

  datatype CostPolicy = FreeOnly | FreePreferred | PaidAllowed

  datatype Application = Application(id: string, active: bool, capabilities: set<string>)

  const CLASSES: seq<ServiceClass> := [Economy, Standard, Quality]

  const WILDCARD: string := "*"

  predicate Empty(s: Option<string>) { s.None? || s.value == "" }

  /** value.strip() if value and value.strip() else None */
  function Clean(s: Option<string>): Option<string> {
    if Empty(s) || Strip(s.value) == "" then None else Some(Strip(s.value))
  }

  /** A configured name with something in it besides white space. */
  predicate Filled(s: Option<string>) { s.Some? && Strip(s.value) != "" }

  /** Some listed application of this id is active and has the capability. */
  predicate Served(apps: seq<Application>, capability: string, id: string) {
    exists i :: 0 <= i < |apps| && apps[i].id == id && apps[i].active && capability in apps[i].capabilities
  }

  method ActiveIds(apps: seq<Application>, capability: string) returns (ids: seq<string>)
    ensures forall id :: id in ids <==> Served(apps, capability, id)
  {
    ids := [];
    for i := 0 to |apps|
      invariant forall id :: id in ids <==> Served(apps[..i], capability, id)
    {
      assert forall id :: Served(apps[..i + 1], capability, id) <==>
        Served(apps[..i], capability, id) || (apps[i].id == id && apps[i].active
          && capability in apps[i].capabilities) by {
        ServedOneMore(apps, capability, i);
      }
      if apps[i].active && capability in apps[i].capabilities {
        ids := ids + [apps[i].id];
      }
    }
    assert apps[..|apps|] == apps;
  }

  lemma ServedOneMore(apps: seq<Application>, capability: string, i: nat)
    requires i < |apps|
    ensures forall id :: Served(apps[..i + 1], capability, id) <==>
              Served(apps[..i], capability, id)
                || (apps[i].id == id && apps[i].active && capability in apps[i].capabilities)
  {
    forall id ensures Served(apps[..i + 1], capability, id) <==>
              Served(apps[..i], capability, id)
                || (apps[i].id == id && apps[i].active && capability in apps[i].capabilities) {
      assert forall j | 0 <= j < i :: apps[..i + 1][j] == apps[..i][j];
      assert apps[..i + 1][i] == apps[i];
    }
  }

  lemma AllClasses(sc: ServiceClass)
    ensures sc in CLASSES
  {
    assert CLASSES[0] == Economy && CLASSES[1] == Standard && CLASSES[2] == Quality;
  }
}

/** The AI rule table of the gateway and the policy that reads it. */
module AIPolicy {
  import opened Common
  import opened Text
  import opened PolicyBasics

  datatype Profile = User | AdminDev

  const PROFILES: seq<Profile> := [User, AdminDev]

  datatype Config = Config(
    enabled: bool,
    defaultModel: Option<string>,
    economyModel: Option<string>, standardModel: Option<string>, qualityModel: Option<string>,
    provider: Option<string>, modelIsPaid: bool, enforcesMaxTokens: bool, maxTokensLimit: int,
    userModel: Option<string>, adminDevModel: Option<string>)

  datatype Target = Target(model: string, provider: Option<string>, paid: bool, maxTokensLimit: Option<int>,
    enforcesMaxTokens: bool)

  datatype Key = Key(application: string, purpose: string, serviceClass: ServiceClass, profile: Profile)

  predicate IsConfigured(c: Config) {
    c.enabled && (Clean(c.defaultModel).Some? || Clean(c.userModel).Some? || Clean(c.adminDevModel).Some?)
  }

  function ModelFor(c: Config, sc: ServiceClass): Option<string> {
    var configured :=
      match sc
      case Economy => c.economyModel
      case Standard => c.standardModel
      case Quality => c.qualityModel;
    Clean(if Empty(configured) then c.defaultModel else configured)
  }

  function ModelForProfile(c: Config, p: Profile): Option<string> {
    Clean(match p case User => c.userModel case AdminDev => c.adminDevModel)
  }

  function ClassTarget(c: Config, model: string): Target {
    var provider := if Empty(c.provider) then None else c.provider;
    Target(model, provider, c.modelIsPaid, Some(c.maxTokensLimit), c.enforcesMaxTokens)
  }

  function ProfileTarget(c: Config, model: string, p: Profile): Target {
    Target(model, None, p == AdminDev, Some(c.maxTokensLimit), c.enforcesMaxTokens)
  }

  /** The declarative reference: which target a configured gateway gives to a class and a profile. */
  function Choice(c: Config, sc: ServiceClass, p: Profile): Option<Target> {
    match ModelForProfile(c, p)
    case Some(model) => Some(ProfileTarget(c, model, p))
    case None =>
      match ModelFor(c, sc)
      case Some(model) => Some(ClassTarget(c, model))
      case None => None
  }

  /** The rule of a key: only for applications served, and only under the wildcard purpose. */
  function Rule(c: Config, apps: seq<Application>, k: Key): Option<Target> {
    if !IsConfigured(c) || k.purpose != WILDCARD || !Served(apps, "ai", k.application) then None
    else Choice(c, k.serviceClass, k.profile)
  }

  /** The wildcard keys of some applications, classes and profiles. */
  function Keys(ids: seq<string>, classes: seq<ServiceClass>, profiles: seq<Profile>): (r: set<Key>)
    ensures forall k :: k in r <==>
              k.purpose == WILDCARD && k.application in ids && k.serviceClass in classes
              && k.profile in profiles
  {
    set id, sc, p | id in ids && sc in classes && p in profiles :: Key(id, WILDCARD, sc, p)
  }

  function Overwrite(rules: map<Key, Target>, keys: set<Key>, t: Target): map<Key, Target> {
    rules + map k | k in keys :: t
  }

  lemma OverwriteTwice(rules: map<Key, Target>, a: set<Key>, b: set<Key>, t: Target)
    ensures Overwrite(Overwrite(rules, a, t), b, t) == Overwrite(rules, a + b, t)
  {
  }

  lemma OverwriteOne(rules: map<Key, Target>, k: Key, t: Target)
    ensures rules[k := t] == Overwrite(rules, {k}, t)
  {
  }

  /** The inner loops of both passes: one target for every application, and for every class and profile
      given. The first pass gives one class and all profiles, the second one profile and all classes. */
  method WriteTarget(before: map<Key, Target>, ids: seq<string>, classes: seq<ServiceClass>, profiles: seq<Profile>,
                     t: Target)
    returns (rules: map<Key, Target>)
    ensures rules == Overwrite(before, Keys(ids, classes, profiles), t)
  {
    hide Overwrite, Keys;
    rules := before;
    OverwriteNothing(before, t);
    assert Keys(ids[..0], classes, profiles) == {};
    for i := 0 to |ids|
      invariant rules == Overwrite(before, Keys(ids[..i], classes, profiles), t)
    {
      ghost var start := rules;
      OverwriteNothing(start, t);
      assert Keys([ids[i]], classes[..0], profiles) == {};
      for j := 0 to |classes|
        invariant rules == Overwrite(start, Keys([ids[i]], classes[..j], profiles), t)
      {
        ghost var inner := rules;
        OverwriteNothing(inner, t);
        assert Keys([ids[i]], [classes[j]], profiles[..0]) == {};
        for k := 0 to |profiles|
          invariant rules == Overwrite(inner, Keys([ids[i]], [classes[j]], profiles[..k]), t)
        {
          var key := Key(ids[i], WILDCARD, classes[j], profiles[k]);
          OverwriteOne(rules, key, t);
          OverwriteTwice(inner, Keys([ids[i]], [classes[j]], profiles[..k]), {key}, t);
          assert profiles[..k + 1] == profiles[..k] + [profiles[k]];
          assert Keys([ids[i]], [classes[j]], profiles[..k + 1]) == Keys([ids[i]], [classes[j]], profiles[..k]) + {key};
          rules := rules[key := t];
        }
        assert profiles[..|profiles|] == profiles;
        OverwriteTwice(start, Keys([ids[i]], classes[..j], profiles), Keys([ids[i]], [classes[j]], profiles), t);
        assert classes[..j + 1] == classes[..j] + [classes[j]];
        assert Keys([ids[i]], classes[..j + 1], profiles) == Keys([ids[i]], classes[..j], profiles)
          + Keys([ids[i]], [classes[j]], profiles);
      }
      assert classes[..|classes|] == classes;
      OverwriteTwice(before, Keys(ids[..i], classes, profiles), Keys([ids[i]], classes, profiles), t);
      assert ids[..i + 1] == ids[..i] + [ids[i]];
      assert Keys(ids[..i + 1], classes, profiles) == Keys(ids[..i], classes, profiles)
        + Keys([ids[i]], classes, profiles);
    }
    assert ids[..|ids|] == ids;
  }

  lemma OverwriteNothing(rules: map<Key, Target>, t: Target)
    ensures Overwrite(rules, {}, t) == rules
  {
  }

  lemma AllProfiles(p: Profile)
    ensures p in PROFILES
  {
    assert PROFILES[0] == User && PROFILES[1] == AdminDev;
  }

  /** The first pass: every class with a model, every application, every profile. */
  method FillClasses(c: Config, ids: seq<string>) returns (rules: map<Key, Target>)
    ensures forall k :: k in rules <==>
              k.purpose == WILDCARD && k.application in ids
              && ModelFor(c, k.serviceClass).Some?
    ensures forall k | k in rules :: rules[k] == ClassTarget(c, ModelFor(c, k.serviceClass).value)
  {
    hide ModelFor, ClassTarget;
    rules := map[];
    for i := 0 to |CLASSES|
      invariant forall k :: k in rules <==>
        k.purpose == WILDCARD && k.application in ids && ModelFor(c, k.serviceClass).Some?
          && k.serviceClass in CLASSES[..i]
      invariant forall k | k in rules :: rules[k] == ClassTarget(c, ModelFor(c, k.serviceClass).value)
    {
      var model := ModelFor(c, CLASSES[i]);
      if model.Some? {
        rules := WriteTarget(rules, ids, [CLASSES[i]], PROFILES, ClassTarget(c, model.value));
        forall p: Profile ensures p in PROFILES { AllProfiles(p); }
      }
      assert CLASSES[..i + 1] == CLASSES[..i] + [CLASSES[i]];
    }
    assert CLASSES[..|CLASSES|] == CLASSES;
    forall sc: ServiceClass ensures sc in CLASSES { AllClasses(sc); }
  }

  /** The keys that the second pass writes for the profiles in `ps`. */
  predicate Overlaid(c: Config, ids: seq<string>, ps: seq<Profile>, k: Key) {
    k.purpose == WILDCARD && k.application in ids && ModelForProfile(c, k.profile).Some? && k.profile in ps
  }

  /** The second pass: a profile with a model of its own overrides what the first pass stored for it. */
  method OverlayProfiles(c: Config, ids: seq<string>, base: map<Key, Target>) returns (rules: map<Key, Target>)
    ensures forall k :: k in rules <==> k in base || Overlaid(c, ids, PROFILES, k)
    ensures forall k | k in rules ::
              rules[k] == if Overlaid(c, ids, PROFILES, k)
                then ProfileTarget(c, ModelForProfile(c, k.profile).value, k.profile) else base[k]
  {
    hide ModelForProfile, ProfileTarget;
    rules := base;
    for i := 0 to |PROFILES|
      invariant forall k :: k in rules <==> k in base || Overlaid(c, ids, PROFILES[..i], k)
      invariant forall k | k in rules ::
        rules[k] == if Overlaid(c, ids, PROFILES[..i], k)
          then ProfileTarget(c, ModelForProfile(c, k.profile).value, k.profile) else base[k]
    {
      var p := PROFILES[i];
      var model := ModelForProfile(c, p);
      if model.Some? {
        rules := WriteTarget(rules, ids, CLASSES, [p], ProfileTarget(c, model.value, p));
        forall sc: ServiceClass ensures sc in CLASSES { AllClasses(sc); }
      }
      assert PROFILES[..i + 1] == PROFILES[..i] + [p];
    }
    assert PROFILES[..|PROFILES|] == PROFILES;
  }

  /** get_ai_manager's table holds exactly the declared rules. */
  method BuildRules(c: Config, apps: seq<Application>) returns (rules: map<Key, Target>)
    ensures HoldsRules(rules, c, apps)
  {
    if !IsConfigured(c) {
      return map[];
    }
    var ids := ActiveIds(apps, "ai");
    var base := FillClasses(c, ids);
    rules := OverlayProfiles(c, ids, base);
    forall p: Profile ensures p in PROFILES { AllProfiles(p); }
  }

  // ---------------------------------------------------------------- resolving

  datatype Request = Request(application: string, purpose: string, serviceClass: ServiceClass, profile: Profile,
    costPolicy: CostPolicy, maxTokens: Option<int>)

  datatype Error = ApplicationDenied | NotConfigured | CostPolicyDenied | LimitExceeded | MaxTokensUnsupported

  function Lookup(rules: map<Key, Target>, r: Request): Option<Target> {
    var exact := Key(r.application, r.purpose, r.serviceClass, r.profile);
    var wildcard := exact.(purpose := WILDCARD);
    if exact in rules then Some(rules[exact]) else if wildcard in rules then Some(rules[wildcard]) else None
  }

  /** AIPolicy.resolve; `active` is the registry's answer at the time of the call. */
  function Resolve(rules: map<Key, Target>, active: bool, r: Request): Result<Target, Error> {
    if !active then Err(ApplicationDenied)
    else match Lookup(rules, r)
      case None => Err(NotConfigured)
      case Some(t) =>
        if r.costPolicy == FreeOnly && t.paid then Err(CostPolicyDenied)
        else if r.maxTokens.Some? && t.maxTokensLimit.Some? && r.maxTokens.value > t.maxTokensLimit.value
          then Err(LimitExceeded)
        else if r.maxTokens.Some? && !t.enforcesMaxTokens then Err(MaxTokensUnsupported)
        else Ok(t)
  }

  ghost predicate HoldsRules(rules: map<Key, Target>, c: Config, apps: seq<Application>) {
    && (forall k :: k in rules <==> Rule(c, apps, k).Some?)
    && (forall k | k in rules :: Rule(c, apps, k) == Some(rules[k]))
  }

  /** On the built table, whatever purpose the caller writes, a request resolves to a target if and only if
      it is the declared choice for its application, class and profile, is not paid when only free targets
      are acceptable, and can honour max_tokens; the request's purpose plays no part. */
  lemma ResolvesToChoice(rules: map<Key, Target>, c: Config, apps: seq<Application>, active: bool, r: Request,
                         t: Target)
    requires HoldsRules(rules, c, apps)
    ensures Resolve(rules, active, r) == Ok(t) <==>
      && active && IsConfigured(c) && Served(apps, "ai", r.application)
      && Choice(c, r.serviceClass, r.profile) == Some(t)
      && (r.costPolicy == FreeOnly ==> !t.paid)
      && (r.maxTokens.Some? ==> t.enforcesMaxTokens && r.maxTokens.value <= c.maxTokensLimit)
  {
    hide IsConfigured, ModelFor, ModelForProfile;
    LookupIsChoice(rules, c, apps, r);
  }

  /** The target on the configuration's own fields: the profile's own model if that is not blank, free for
      users and paid for administrators, of no particular provider; otherwise the class's own model, or the
      default one where that is missing or empty, if not blank, as paid as configured. Both carry the
      configured limit. */
  predicate Declared(c: Config, sc: ServiceClass, p: Profile, t: Target) {
    var own := match p case User => c.userModel case AdminDev => c.adminDevModel;
    && t.maxTokensLimit == Some(c.maxTokensLimit) && t.enforcesMaxTokens == c.enforcesMaxTokens
    && (Filled(own) ==> t.model == Strip(own.value) && t.provider == None && t.paid == (p == AdminDev))
    && (!Filled(own) ==>
          && (sc == Economy ==> IsModel(c.economyModel, c.defaultModel, t.model))
          && (sc == Standard ==> IsModel(c.standardModel, c.defaultModel, t.model))
          && (sc == Quality ==> IsModel(c.qualityModel, c.defaultModel, t.model))
          && t.provider == (if c.provider == Some("") then None else c.provider) && t.paid == c.modelIsPaid)
  }

  lemma ConfiguredExactly(c: Config)
    ensures IsConfigured(c) <==> c.enabled && (Filled(c.defaultModel) || Filled(c.userModel) || Filled(c.adminDevModel))
  {
    hide Strip;
    assert Strip("") == "" by { StripEmpty(); }
  }

  lemma ChoiceExactly(c: Config, sc: ServiceClass, p: Profile, t: Target)
    ensures Choice(c, sc, p) == Some(t) <==> Declared(c, sc, p, t)
  {
    hide Strip;
    assert Strip("") == "" by { StripEmpty(); }
  }

  /** On the built table a request resolves to a target exactly when the application is listed as active with
      the capability, the gateway is enabled with some model, the target is the declared one, and it meets
      the cost policy and the max_tokens rules. */
  lemma ResolvesOnFields(rules: map<Key, Target>, c: Config, apps: seq<Application>, active: bool, r: Request,
                         t: Target)
    requires HoldsRules(rules, c, apps)
    ensures Resolve(rules, active, r) == Ok(t) <==>
      && active && c.enabled && (Filled(c.defaultModel) || Filled(c.userModel) || Filled(c.adminDevModel))
      && (exists i :: 0 <= i < |apps| && apps[i].id == r.application && apps[i].active && "ai" in apps[i].capabilities)
      && Declared(c, r.serviceClass, r.profile, t)
      && !(r.costPolicy == FreeOnly && t.paid)
      && (r.maxTokens.Some? ==> c.enforcesMaxTokens && r.maxTokens.value <= c.maxTokensLimit)
  {
    hide IsConfigured, Choice, Filled, HoldsRules, Resolve;
    ResolvesToChoice(rules, c, apps, active, r, t);
    ConfiguredExactly(c);
    ChoiceExactly(c, r.serviceClass, r.profile, t);
  }

  /** The class's own model, or the default where it is missing or empty; stripped, and not blank. */
  predicate IsModel(own: Option<string>, default: Option<string>, model: string) {
    var used := if own == None || own == Some("") then default else own;
    Filled(used) && model == Strip(used.value)
  }

  /** Why a request is refused: in this order, an inactive application, no target, a paid target for a free
      request, a limit above the configured one, and a limit that is not enforced. */
  lemma RefusedExactly(rules: map<Key, Target>, c: Config, apps: seq<Application>, active: bool, r: Request)
    requires HoldsRules(rules, c, apps)
    ensures var choice := if IsConfigured(c) && Served(apps, "ai", r.application)
              then Choice(c, r.serviceClass, r.profile) else None;
      var unpaid := active && choice.Some? && !(r.costPolicy == FreeOnly && choice.value.paid);
      var tooMany := r.maxTokens.Some? && r.maxTokens.value > c.maxTokensLimit;
      && (Resolve(rules, active, r) == Err(ApplicationDenied) <==> !active)
      && (Resolve(rules, active, r) == Err(NotConfigured) <==> active && choice == None)
      && (Resolve(rules, active, r) == Err(CostPolicyDenied) <==>
            active && choice.Some? && r.costPolicy == FreeOnly && choice.value.paid)
      && (Resolve(rules, active, r) == Err(LimitExceeded) <==> unpaid && tooMany)
      && (Resolve(rules, active, r) == Err(MaxTokensUnsupported) <==>
            unpaid && !tooMany && r.maxTokens.Some? && !c.enforcesMaxTokens)
  {
    hide IsConfigured, ModelFor, ModelForProfile;
    LookupIsChoice(rules, c, apps, r);
  }

  lemma LookupIsChoice(rules: map<Key, Target>, c: Config, apps: seq<Application>, r: Request)
    requires HoldsRules(rules, c, apps)
    ensures Lookup(rules, r) ==
            if IsConfigured(c) && Served(apps, "ai", r.application) then Choice(c, r.serviceClass, r.profile) else None
  {
    hide IsConfigured, Choice, Served;
    var exact := Key(r.application, r.purpose, r.serviceClass, r.profile);
    var wildcard := exact.(purpose := WILDCARD);
    assert exact in rules <==> Rule(c, apps, exact).Some?;
    assert wildcard in rules <==> Rule(c, apps, wildcard).Some?;
  }

  /** A profile with a model of its own gets that model for every class, free for users and paid for
      administrators, whatever the class models are; without one it gets the class model. */
  lemma ProfileWins(c: Config, apps: seq<Application>, k: Key)
    requires Rule(c, apps, k).Some?
    ensures var t := Rule(c, apps, k).value;
      && (ModelForProfile(c, k.profile).Some? ==>
            t.model == ModelForProfile(c, k.profile).value && t.provider == None && t.paid == (k.profile == AdminDev))
      && (ModelForProfile(c, k.profile).None? ==>
            Some(t.model) == ModelFor(c, k.serviceClass) && t.paid == c.modelIsPaid)
      && !IsBlank(t.model)
  {
  }

  function WithModel(c: Config, p: Profile, model: Option<string>): Config {
    match p
    case User => c.(userModel := model)
    case AdminDev => c.(adminDevModel := model)
  }

  lemma ChoiceIgnoresOtherProfile(c: Config, p: Profile, model: Option<string>, sc: ServiceClass, q: Profile)
    requires p != q
    ensures Choice(WithModel(c, p, model), sc, q) == Choice(c, sc, q)
  {
    hide Clean;
  }

  /** Changing one profile's model leaves every rule of the other profile alone exactly when the gateway
      stays configured (or unconfigured) or the rule's key had no choice anyway: the passes cannot leak one
      profile's target to the other, but the enabling condition looks at the models of both. */
  lemma ProfilesIndependentExactly(c: Config, p: Profile, model: Option<string>, apps: seq<Application>, k: Key)
    requires k.profile != p && k.purpose == WILDCARD && Served(apps, "ai", k.application)
    ensures Rule(WithModel(c, p, model), apps, k) == Rule(c, apps, k) <==>
              IsConfigured(WithModel(c, p, model)) == IsConfigured(c) || Choice(c, k.serviceClass, k.profile) == None
  {
    hide Choice, IsConfigured;
    ChoiceIgnoresOtherProfile(c, p, model, k.serviceClass, k.profile);
  }

  /** The coupling is real: with only an economy model, users are served or not depending on whether
      administrators have a model. */
  lemma EnablingCouplesProfiles(limit: int, apps: seq<Application>, id: string)
    requires Served(apps, "ai", id)
    ensures var c := Config(true, None, Some("e"), None, None, None, false, false, limit, None, None);
      var k := Key(id, WILDCARD, Economy, User);
      Rule(c, apps, k) == None && Rule(c.(adminDevModel := Some("a")), apps, k).Some?
  {
    hide Served, Clean;
    CleanLetter('e');
    CleanLetter('a');
  }

  lemma CleanLetter(c: char)
    requires !IsSpace(c)
    ensures Clean(Some([c])) == Some([c])
    ensures Clean(None) == None
  {
  }

  /** Whatever the rules: the rule of the request's own purpose comes first, then the wildcard's. */
  lemma ResolvesFromRules(rules: map<Key, Target>, active: bool, r: Request, t: Target)
    ensures var own := Key(r.application, r.purpose, r.serviceClass, r.profile);
      var any := Key(r.application, "*", r.serviceClass, r.profile);
      Resolve(rules, active, r) == Ok(t) <==>
        && active && (if own in rules then rules[own] == t else any in rules && rules[any] == t)
        && !(r.costPolicy == FreeOnly && t.paid)
        && (r.maxTokens.Some? ==>
              t.enforcesMaxTokens && (t.maxTokensLimit.Some? ==> r.maxTokens.value <= t.maxTokensLimit.value))
  {
  }
}

/** The Search rule table of the gateway and the policy that reads it. */
module SearchPolicy {
  import opened Common
  import opened Text
  import opened PolicyBasics

  const DOCUMENTATION: string := "technical_documentation"

  datatype Config = Config(
    enabled: bool, defaultProvider: Option<string>, economyProvider: Option<string>, standardProvider: Option<string>,
    qualityProvider: Option<string>, documentationProvider: Option<string>, healthUrl: Option<string>,
    providerIsPaid: bool, maxResultsLimit: int)

  datatype Target = Target(provider: string, paid: bool, maxResultsLimit: int)

  datatype Key = Key(application: string, purpose: string, serviceClass: ServiceClass)

  function ProviderFor(c: Config, sc: ServiceClass): Option<string> {
    var configured :=
      match sc
      case Economy => c.economyProvider
      case Standard => c.standardProvider
      case Quality => c.qualityProvider;
    var chosen := if Empty(configured) then c.defaultProvider else configured;
    var selected := if chosen.None? then "" else Strip(chosen.value);
    if selected == "searxng-search" && Empty(c.healthUrl) then None
    else if selected == "" then None else Some(selected)
  }

  function Documentation(c: Config): Option<string> { Clean(c.documentationProvider) }

  predicate IsConfigured(c: Config) {
    c.enabled && (ProviderFor(c, Economy).Some? || ProviderFor(c, Standard).Some? || ProviderFor(c, Quality).Some?
      || Documentation(c).Some?)
  }

  function TargetOf(c: Config, provider: string): Target { Target(provider, c.providerIsPaid, c.maxResultsLimit) }

  /** The provider stored under a purpose: general search under the wildcard, documentation under its own. */
  function Provider(c: Config, sc: ServiceClass, purpose: string): Option<string> {
    if purpose == WILDCARD then ProviderFor(c, sc)
    else if purpose == DOCUMENTATION then Documentation(c)
    else None
  }

  /** What each list_applications() of one build returns: there is one call for every class and purpose, and
      administrators may change the tables between any two. */
  type Listing = (ServiceClass, string) -> seq<Application>

  /** The target of a configured gateway for a key, from the applications listed for its class and purpose. */
  function Stored(c: Config, listing: Listing, k: Key): Option<Target> {
    if !Served(listing(k.serviceClass, k.purpose), "search", k.application) then None
    else match Provider(c, k.serviceClass, k.purpose)
      case None => None
      case Some(provider) => Some(TargetOf(c, provider))
  }

  function Rule(c: Config, listing: Listing, k: Key): Option<Target> {
    if IsConfigured(c) then Stored(c, listing, k) else None
  }

  /** One target for every application under one purpose and class. */
  method WriteTarget(before: map<Key, Target>, ids: seq<string>, purpose: string, sc: ServiceClass, t: Target)
    returns (rules: map<Key, Target>)
    ensures forall k :: k in rules <==>
              k in before
              || (k.application in ids && k.purpose == purpose && k.serviceClass == sc)
    ensures forall k | k in rules ::
              rules[k] == if k.application in ids && k.purpose == purpose && k.serviceClass == sc then t else before[k]
  {
    rules := before;
    for j := 0 to |ids|
      invariant forall k :: k in rules <==>
                  k in before
                  || (k.application in ids[..j] && k.purpose == purpose && k.serviceClass == sc)
      invariant forall k | k in rules ::
        rules[k] == if k.application in ids[..j] && k.purpose == purpose && k.serviceClass == sc then t else before[k]
    {
      rules := rules[Key(ids[j], purpose, sc) := t];
      assert ids[..j + 1] == ids[..j] + [ids[j]];
    }
    assert ids[..|ids|] == ids;
  }

  /** One pass for one class and purpose: list the applications, store the target for those served. */
  method FillPurpose(before: map<Key, Target>, c: Config, listing: Listing, sc: ServiceClass, purpose: string)
    returns (rules: map<Key, Target>)
    requires purpose == WILDCARD || purpose == DOCUMENTATION
    ensures forall k: Key | k.serviceClass == sc && k.purpose == purpose && Stored(c, listing, k).Some? ::
              k in rules && rules[k] == Stored(c, listing, k).value
    ensures forall k: Key | !(k.serviceClass == sc && k.purpose == purpose && Stored(c, listing, k).Some?) ::
              (k in rules <==> k in before) && (k in rules ==> rules[k] == before[k])
  {
    hide ProviderFor, Documentation, Served;
    rules := before;
    var provider := Provider(c, sc, purpose);
    if provider.Some? {
      var ids := ActiveIds(listing(sc, purpose), "search");
      rules := WriteTarget(rules, ids, purpose, sc, TargetOf(c, provider.value));
    }
  }

  method FillClasses(c: Config, listing: Listing) returns (rules: map<Key, Target>)
    ensures forall k :: k in rules <==> Stored(c, listing, k).Some?
    ensures forall k | k in rules :: rules[k] == Stored(c, listing, k).value
  {
    hide TargetOf, Served, ProviderFor, Documentation;
    rules := map[];
    for i := 0 to |CLASSES|
      invariant forall k :: k in rules <==> k.serviceClass in CLASSES[..i] && Stored(c, listing, k).Some?
      invariant forall k | k in rules :: rules[k] == Stored(c, listing, k).value
    {
      assert CLASSES[..i + 1] == CLASSES[..i] + [CLASSES[i]];
      rules := FillPurpose(rules, c, listing, CLASSES[i], WILDCARD);
      rules := FillPurpose(rules, c, listing, CLASSES[i], DOCUMENTATION);
    }
    assert CLASSES[..|CLASSES|] == CLASSES;
    forall sc: ServiceClass ensures sc in CLASSES { AllClasses(sc); }
  }

  /** get_search_manager's table holds exactly the declared rules. */
  method BuildRules(c: Config, listing: Listing) returns (rules: map<Key, Target>)
    ensures HoldsRules(rules, c, listing)
  {
    hide Provider, TargetOf, IsConfigured;
    if !IsConfigured(c) {
      return map[];
    }
    rules := FillClasses(c, listing);
  }

  ghost predicate HoldsRules(rules: map<Key, Target>, c: Config, listing: Listing) {
    && (forall k :: k in rules <==> Rule(c, listing, k).Some?)
    && (forall k | k in rules :: Rule(c, listing, k) == Some(rules[k]))
  }

  datatype Request = Request(application: string, purpose: string, serviceClass: ServiceClass, costPolicy: CostPolicy,
    maxResults: int)

  datatype Error = ApplicationDenied | NotConfigured | CostPolicyDenied | LimitExceeded

  function Lookup(rules: map<Key, Target>, r: Request): Option<Target> {
    var exact := Key(r.application, r.purpose, r.serviceClass);
    var wildcard := exact.(purpose := WILDCARD);
    if exact in rules then Some(rules[exact]) else if wildcard in rules then Some(rules[wildcard]) else None
  }

  function Resolve(rules: map<Key, Target>, active: bool, r: Request): Result<Target, Error> {
    if !active then Err(ApplicationDenied)
    else match Lookup(rules, r)
      case None => Err(NotConfigured)
      case Some(t) =>
        if r.costPolicy == FreeOnly && t.paid then Err(CostPolicyDenied)
        else if r.maxResults > t.maxResultsLimit then Err(LimitExceeded)
        else Ok(t)
  }

  /** Documentation requests go to the documentation provider when there is one and the application was
      listed for it; everything else, and documentation without one, to the provider of the class. */
  function Choice(c: Config, listing: Listing, r: Request): Option<string> {
    var sc := r.serviceClass;
    if r.purpose == DOCUMENTATION && Documentation(c).Some?
      && Served(listing(sc, DOCUMENTATION), "search", r.application)
    then Documentation(c)
    else if Served(listing(sc, WILDCARD), "search", r.application) then ProviderFor(c, sc)
    else None
  }

  /** On the built table a request resolves to a target if and only if it is the declared choice, is not
      paid when only free targets are acceptable, and allows that many results. */
  lemma ResolvesToChoice(rules: map<Key, Target>, c: Config, listing: Listing, active: bool, r: Request, t: Target)
    requires HoldsRules(rules, c, listing)
    ensures Resolve(rules, active, r) == Ok(t) <==>
      && active && IsConfigured(c)
      && Choice(c, listing, r).Some? && t == Target(Choice(c, listing, r).value, c.providerIsPaid, c.maxResultsLimit)
      && (r.costPolicy == FreeOnly ==> !c.providerIsPaid)
      && r.maxResults <= c.maxResultsLimit
  {
    hide ProviderFor, Documentation, IsConfigured, Served;
    var exact := Key(r.application, r.purpose, r.serviceClass);
    var wildcard := exact.(purpose := WILDCARD);
    assert exact in rules <==> Rule(c, listing, exact).Some?;
    assert wildcard in rules <==> Rule(c, listing, wildcard).Some?;
  }

  /** A provider as it is configured: stripped, not blank, and searxng-search only with a health URL. */
  predicate IsProvider(c: Config, name: Option<string>, provider: string) {
    && Filled(name) && provider == Strip(name.value)
    && (provider == "searxng-search" ==> c.healthUrl.Some? && c.healthUrl.value != "")
  }

  function OrDefault(c: Config, own: Option<string>): Option<string> {
    if own == None || own == Some("") then c.defaultProvider else own
  }

  /** The provider on the configuration's own fields: documentation requests of an application listed for it
      get the documentation provider if that is not blank; all others the provider of their own class, or the
      default one where that is missing or empty. */
  predicate Declared(c: Config, listing: Listing, r: Request, provider: string) {
    var sc := r.serviceClass;
    if r.purpose == "technical_documentation" && Filled(c.documentationProvider)
      && Served(listing(sc, "technical_documentation"), "search", r.application)
    then provider == Strip(c.documentationProvider.value)
    else
      && Served(listing(sc, "*"), "search", r.application)
      && (sc == Economy ==> IsProvider(c, OrDefault(c, c.economyProvider), provider))
      && (sc == Standard ==> IsProvider(c, OrDefault(c, c.standardProvider), provider))
      && (sc == Quality ==> IsProvider(c, OrDefault(c, c.qualityProvider), provider))
  }

  lemma ProviderExactly(c: Config, sc: ServiceClass, provider: string)
    ensures ProviderFor(c, sc) == Some(provider) <==>
              && (sc == Economy ==> IsProvider(c, OrDefault(c, c.economyProvider), provider))
              && (sc == Standard ==> IsProvider(c, OrDefault(c, c.standardProvider), provider))
              && (sc == Quality ==> IsProvider(c, OrDefault(c, c.qualityProvider), provider))
  {
    hide Strip;
    assert Strip("") == "" by { StripEmpty(); }
  }

  lemma DocumentationExactly(c: Config)
    ensures Documentation(c) == if Filled(c.documentationProvider) then Some(Strip(c.documentationProvider.value))
              else None
  {
    hide Strip;
    assert Strip("") == "" by { StripEmpty(); }
  }

  lemma ConfiguredExactly(c: Config)
    ensures IsConfigured(c) <==>
              c.enabled && (Filled(c.documentationProvider) || exists sc: ServiceClass :: ProviderFor(c, sc).Some?)
  {
    hide ProviderFor, Documentation;
    DocumentationExactly(c);
    assert ProviderFor(c, Economy).Some? ==> exists sc: ServiceClass :: ProviderFor(c, sc).Some?;
    assert ProviderFor(c, Standard).Some? ==> exists sc: ServiceClass :: ProviderFor(c, sc).Some?;
    assert ProviderFor(c, Quality).Some? ==> exists sc: ServiceClass :: ProviderFor(c, sc).Some?;
    if sc: ServiceClass :| ProviderFor(c, sc).Some? {
      assert sc == Economy || sc == Standard || sc == Quality;
    }
  }

  lemma ChoiceExactly(c: Config, listing: Listing, r: Request, provider: string)
    ensures Choice(c, listing, r) == Some(provider) <==> Declared(c, listing, r, provider)
  {
    hide ProviderFor, Documentation, Filled, Served, IsProvider;
    DocumentationExactly(c);
    ProviderExactly(c, r.serviceClass, provider);
  }

  lemma ChosenIsConfigured(c: Config, listing: Listing, r: Request)
    requires Choice(c, listing, r).Some?
    ensures IsConfigured(c) <==> c.enabled
  {
    hide ProviderFor, Documentation, Served;
    ConfiguredExactly(c);
    DocumentationExactly(c);
  }

  /** On the built table a request resolves to a target exactly when the gateway is enabled, the provider is
      the declared one, and cost and result limit allow it. */
  lemma ResolvesOnFields(rules: map<Key, Target>, c: Config, listing: Listing, active: bool, r: Request, t: Target)
    requires HoldsRules(rules, c, listing)
    ensures Resolve(rules, active, r) == Ok(t) <==>
      && active && c.enabled && Declared(c, listing, r, t.provider)
      && t.paid == c.providerIsPaid && t.maxResultsLimit == c.maxResultsLimit
      && !(r.costPolicy == FreeOnly && c.providerIsPaid) && r.maxResults <= c.maxResultsLimit
  {
    hide IsConfigured, Choice, Declared, HoldsRules, Resolve;
    ResolvesToChoice(rules, c, listing, active, r, t);
    ChoiceExactly(c, listing, r, t.provider);
    if Choice(c, listing, r).Some? {
      ChosenIsConfigured(c, listing, r);
    }
  }

  /** Why a request is refused, in this order. */
  lemma RefusedExactly(rules: map<Key, Target>, c: Config, listing: Listing, active: bool, r: Request)
    requires HoldsRules(rules, c, listing)
    ensures var choice := if IsConfigured(c) then Choice(c, listing, r) else None;
      var unpaid := active && choice.Some? && !(r.costPolicy == FreeOnly && c.providerIsPaid);
      && (Resolve(rules, active, r) == Err(ApplicationDenied) <==> !active)
      && (Resolve(rules, active, r) == Err(NotConfigured) <==> active && choice == None)
      && (Resolve(rules, active, r) == Err(CostPolicyDenied) <==>
            active && choice.Some? && r.costPolicy == FreeOnly && c.providerIsPaid)
      && (Resolve(rules, active, r) == Err(LimitExceeded) <==> unpaid && r.maxResults > c.maxResultsLimit)
  {
    hide ProviderFor, Documentation, IsConfigured, Served;
    var exact := Key(r.application, r.purpose, r.serviceClass);
    var wildcard := exact.(purpose := WILDCARD);
    assert exact in rules <==> Rule(c, listing, exact).Some?;
    assert wildcard in rules <==> Rule(c, listing, wildcard).Some?;
  }

  /** Whatever the rules: the rule of the request's own purpose comes first, then the wildcard's. */
  lemma ResolvesFromRules(rules: map<Key, Target>, active: bool, r: Request, t: Target)
    ensures var own := Key(r.application, r.purpose, r.serviceClass);
      var any := Key(r.application, "*", r.serviceClass);
      Resolve(rules, active, r) == Ok(t) <==>
        && active && (if own in rules then rules[own] == t else any in rules && rules[any] == t)
        && !(r.costPolicy == FreeOnly && t.paid) && r.maxResults <= t.maxResultsLimit
  {
  }
}
