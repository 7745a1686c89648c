/** The names that fee roles go by, and the keys that the engine gives them. */
module ExtensionKeys {
  import opened CatalystFees
  import Text

  /** Roles have different engine keys, so no pre-calculated fee hides another. */
  lemma RoleKeysDistinct(a: FeeSplitRole, b: FeeSplitRole)
    ensures RoleKey(a) == RoleKey(b) <==> a == b
  {
    RoleKeyOf(a);
    RoleKeyOf(b);
  }

  lemma RoleKeyOf(role: FeeSplitRole)
    ensures RoleKey(role) == match role
                             case Payer => "payer_fsp_fee"
                             case Payee => "payee_fsp_fee"
                             case Hub => "hub_fee"
                             case Si => "si_fee"
                             case Fxp => "fxp_fee"
  {
    hide ToExtensionKey;
    KnownName(role.Name());
  }

  /**
   The two tables agree: every name under which the validator looks for a role's split is a name
   that the engine normalises to that role's key.
   */
  lemma AliasesNormalise(role: FeeSplitRole, alias: string)
    requires alias in CandidateKeys(role)
    ensures ToExtensionKey(alias) == RoleKey(role)
  {
    hide ToExtensionKey;
    match role {
      case Payer => PayerNames();
      case Payee => PayeeNames();
      case Hub => HubNames();
      case Si => SiNames();
      case Fxp => FxpNames();
    }
  }

  predicate IsLetter(c: char) {
    'A' <= c <= 'Z' || 'a' <= c <= 'z'
  }

  lemma LettersAreVisible(c: char)
    requires IsLetter(c)
    ensures !Text.IsSpace(c)
  {}

  // A name that begins and ends with a letter is trimmed as it stands.
  lemma KnownName(name: string)
    requires name != "" && IsLetter(name[0]) && IsLetter(name[|name| - 1])
    ensures ToExtensionKey(name) == KeyOfName(name)
  {
    hide Text.IsSpace, KeyOfName;
    LettersAreVisible(name[0]);
    LettersAreVisible(name[|name| - 1]);
    Text.TrimFixes(name);
  }

  lemma PayerNames()
    ensures ToExtensionKey("PAYER_FSP") == ToExtensionKey("payer_fsp") == ToExtensionKey("payer_fsp_fee")
         == ToExtensionKey("payer_fsp_fee_cc") == "payer_fsp_fee"
  {
    hide ToExtensionKey;
    KnownName("PAYER_FSP");
    KnownName("payer_fsp");
    KnownName("payer_fsp_fee");
    KnownName("payer_fsp_fee_cc");
  }

  lemma PayeeNames()
    ensures ToExtensionKey("PAYEE_FSP") == ToExtensionKey("payee_fsp") == ToExtensionKey("payee_fsp_fee")
         == ToExtensionKey("payee_fsp_fee_cc") == "payee_fsp_fee"
  {
    hide ToExtensionKey;
    KnownName("PAYEE_FSP");
    KnownName("payee_fsp");
    KnownName("payee_fsp_fee");
    KnownName("payee_fsp_fee_cc");
  }

  lemma HubNames()
    ensures ToExtensionKey("HUB") == ToExtensionKey("hub") == ToExtensionKey("hub_fee") == "hub_fee"
  {
    hide ToExtensionKey, PAYER_NAMES, PAYEE_NAMES;
    NotPayerName("HUB");
    NotPayerName("hub");
    NotPayerName("hub_fee");
    KnownName("HUB");
    KnownName("hub");
    KnownName("hub_fee");
  }

  lemma NotPayerName(name: string)
    requires name != "" && name[0] != 'p' && name[0] != 'P'
    ensures name !in PAYER_NAMES && name !in PAYEE_NAMES
  {}

  lemma SiNames()
    ensures ToExtensionKey("SI") == ToExtensionKey("si") == "si_fee"
  {
    hide ToExtensionKey;
    KnownName("SI");
    KnownName("si");
  }

  lemma FxpNames()
    ensures ToExtensionKey("FXP") == ToExtensionKey("fxp") == "fxp_fee"
  {
    hide ToExtensionKey;
    KnownName("FXP");
    KnownName("fxp");
  }

  /** The whole table: four names for each role, one key, and for splits one key with the suffix. */
  lemma TableOfNames(role: FeeSplitRole, name: string)
    requires match role
      case Payer => name in ["PAYER_FSP", "payer_fsp", "payer_fsp_fee", "payer_fsp_fee_cc"]
      case Payee => name in ["PAYEE_FSP", "payee_fsp", "payee_fsp_fee", "payee_fsp_fee_cc"]
      case Hub => name in ["HUB", "hub", "hub_fee", "hub_fee_cc"]
      case Si => name in ["SI", "si", "si_fee", "si_fee_cc"]
      case Fxp => name in ["FXP", "fxp", "fxp_fee", "fxp_fee_cc"]
    ensures ToExtensionKey(name) == RoleKey(role) && ToCcKey(name) == RoleKey(role) + "_cc"
  {
    hide ToExtensionKey, RoleKey;
    RoleKeyOf(role);
    NameOfRole(role, name);
    KnownName(name);
    RoleKeysHaveNoSuffix(RoleKey(role));
  }

  /** A split's key carries the suffix once, whether or not its name does. */
  lemma SuffixOnce(role: string)
    ensures var key := ToExtensionKey(role);
      if Text.EndsWith(key, "_cc") then ToCcKey(role) == key
      else |ToCcKey(role)| == |key| + 3 && key <= ToCcKey(role) && Text.EndsWith(ToCcKey(role), "_cc")
  {
    hide ToExtensionKey;
  }

  lemma NameOfRole(role: FeeSplitRole, name: string)
    requires match role
      case Payer => name in PAYER_NAMES
      case Payee => name in PAYEE_NAMES
      case Hub => name in HUB_NAMES
      case Si => name in SI_NAMES
      case Fxp => name in FXP_NAMES
    ensures name != "" && IsLetter(name[0]) && IsLetter(name[|name| - 1])
    ensures KeyOfName(name) == match role
                               case Payer => "payer_fsp_fee"
                               case Payee => "payee_fsp_fee"
                               case Hub => "hub_fee"
                               case Si => "si_fee"
                               case Fxp => "fxp_fee"
  {}

  lemma RoleKeysHaveNoSuffix(key: string)
    requires IsEngineKey(key)
    ensures !Text.EndsWith(key, "_cc")
  {
    assert key[|key| - 1] == 'e' && "_cc"[2] == 'c';
  }

  // The twenty names of the table, and the five keys it gives.
  predicate IsKnown(name: string) {
    || name in PAYER_NAMES || name in PAYEE_NAMES || name in HUB_NAMES
    || name in SI_NAMES || name in FXP_NAMES
  }

  predicate IsEngineKey(key: string) {
    key in ["payer_fsp_fee", "payee_fsp_fee", "hub_fee", "si_fee", "fxp_fee"]
  }

  lemma KeysOfNames(name: string)
    ensures IsKnown(name) ==> IsEngineKey(KeyOfName(name))
    ensures !IsKnown(name) ==> KeyOfName(name) == ToLowerCase(name)
  {
    hide PAYER_NAMES, PAYEE_NAMES, HUB_NAMES, SI_NAMES, FXP_NAMES;
  }

  lemma EngineKeysAreFixed(key: string)
    requires IsEngineKey(key)
    ensures IsKnown(key) && ToExtensionKey(key) == key
  {
    hide ToExtensionKey;
    PayerNames();
    PayeeNames();
    HubNames();
    KnownName("si_fee");
    KnownName("fxp_fee");
  }

  lemma LowerCaseOfSpace(c: char)
    ensures Text.IsSpace(Text.ToLower(c)) <==> Text.IsSpace(c)
  {}

  lemma LowerCaseIsIdempotent(name: string)
    ensures ToLowerCase(ToLowerCase(name)) == ToLowerCase(name)
  {}

  // The lower case of a trimmed name is trimmed.
  lemma LowerCaseIsTrimmed(role: string)
    ensures var name := Text.Trim(role); Text.Trim(ToLowerCase(name)) == ToLowerCase(name)
  {
    hide Text.IsSpace, Text.ToLower;
    Text.TrimStartStarts(role);
    Text.TrimEndEnds(Text.TrimStart(role));
    var name := Text.Trim(role);
    if name != "" {
      LowerCaseOfSpace(name[0]);
      LowerCaseOfSpace(name[|name| - 1]);
    }
    Text.TrimFixes(ToLowerCase(name));
  }

  /** Known as it stands, or unknown in lower case too, or an engine key in lower case. */
  predicate IsSettled(name: string) {
    IsKnown(name) || !IsKnown(ToLowerCase(name)) || IsEngineKey(ToLowerCase(name))
  }

  /** `toExtensionKey` is idempotent on exactly the names that are settled once trimmed. */
  lemma ExtensionKeyIdempotentExactly(role: string)
    ensures ToExtensionKey(ToExtensionKey(role)) == ToExtensionKey(role) <==> IsSettled(Text.Trim(role))
  {
    hide KeyOfName, IsKnown, IsEngineKey, ToLowerCase, Text.Trim;
    var name := Text.Trim(role);
    var lower := ToLowerCase(name);
    KeysOfNames(name);
    if IsKnown(name) {
      EngineKeysAreFixed(KeyOfName(name));
    } else {
      LowerCaseIsTrimmed(role);
      LowerCaseIsIdempotent(name);
      KeysOfNames(lower);
      if IsEngineKey(lower) { EngineKeysAreFixed(lower); }
    }
  }

  /** The smallest witness: a mixed-case name becomes an alias only after a first pass. */
  lemma ExtensionKeyNotIdempotent()
    ensures ToExtensionKey("Hub") == "hub"
    ensures ToExtensionKey(ToExtensionKey("Hub")) == "hub_fee"
  {
    hide ToExtensionKey;
    KnownName("Hub");
    HubNames();
    assert ToLowerCase("Hub") == "hub";
  }
}
