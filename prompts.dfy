/** The prompt builders for the three generation modes: quick (one of six
    presets), selective (model, location and mood slots) and advanced (a
    custom description). Each fills a template with the options, trims it,
    and pairs it with the same negative prompt. */
module Prompts {
  import opened Wrappers
  import opened JsText

  /** The options object; a missing field is None. */
  datatype PromptOptions = PromptOptions(
    jewelryType: string,
    gender: string,
    aspectRatio: Option<string>,
    presetId: Option<string>,
    model: Option<string>,
    location: Option<string>,
    mood: Option<string>,
    lighting: Option<string>,
    angle: Option<string>,
    pose: Option<string>,
    customPrompt: Option<string>)

  datatype BuiltPrompt = BuiltPrompt(prompt: string, negativePrompt: string)

  /** `value || fallback` for an optional string: a missing or empty value
      gives the fallback. */
  function OrDefault(value: Option<string>, fallback: string): string
  {
    if value.Some? && value.value != "" then value.value else fallback
  }

  /** The destructuring default `aspectRatio = '9:16'`: it applies only to a
      missing value, so an empty string is kept. */
  function AspectRatioOf(options: PromptOptions): string
  {
    options.aspectRatio.GetOr(DefaultAspectRatio)
  }

  const DefaultAspectRatio := "9:16"

  // ---------------------------------------------------------------------
  // Negative prompt

  /** The negative prompt as written: its lines between an opening line
      break with indentation and a closing line break. */
  const NegativeTemplate := "\n  " + NegativeText + "\n"


  /** BASE_NEGATIVE_PROMPT */
  const BaseNegativePrompt := Trim(NegativeTemplate)

  const NegativeText :=
    "blurry, distorted, deformed, " + "low quality, pixelated, grainy, \n"
    + "  watermark, text, logo, signature, amateur, unprofessional,\n"
    + "  wrong anatomy, disproportionate, unrealistic, fake-looking,\n"
    + "  oversaturated, overexposed, underexposed, bad lighting,\n"
    + "  duplicate jewelry, multiple items when single expected,\n"
    + "  damaged jewelry, tarnished, dirty, scratched beyond artistic intent"

  /** Trimming removes only the outer line breaks and indentation: the
      inner indentation and the space after "grainy," stay. */
  lemma BaseNegativePromptText()
    ensures BaseNegativePrompt == NegativeText
  {
    NegativeTextEnds();
    TrimOfPadded("\n  ", NegativeText, "\n");
  }

  lemma NegativeTextEnds()
    ensures NegativeText != [] && !IsSpace(NegativeText[0]) && !IsSpace(NegativeText[|NegativeText| - 1])
    ensures AllSpace("\n  ") && AllSpace("\n")
  {
    assert NegativeText[0] == 'b';
    assert NegativeText[|NegativeText| - 1] == 't';
  }

  // ---------------------------------------------------------------------
  // Rendering a template

  /** The opening lines shared by every template. */
  const Header := "CRITICAL PRESERVATION RULES:\n" + "- EXACT jewelry design must remain 100% identical\n"

  const AspectLabel := "Aspect ratio "

  /** The indentation after the last line of the preset templates and of
      the selective and advanced templates. */
  const QuickPad := "\n    "
  const ShortPad := "\n  "

  lemma PadsAreSpace()
    ensures AllSpace(QuickPad) && AllSpace(ShortPad)
  {
  }

  /** A template is a leading line break, the text before the aspect-ratio
      label, the label, the aspect ratio and trailing indentation; it is
      trimmed. */
  function Render(body: string, aspectRatio: string, pad: string): string {
    Trim("\n" + body + AspectLabel + aspectRatio + pad)
  }

  predicate EndsWith(s: string, t: string) {
    |t| <= |s| && s[|s| - |t|..] == t
  }

  /** An aspect ratio that trimming cannot touch. */
  predicate Tidy(s: string) {
    s != [] && !IsSpace(s[0]) && !IsSpace(s[|s| - 1])
  }

  /** Trimming never cuts into the template text before the aspect ratio,
      and a tidy aspect ratio ends the prompt exactly. */
  lemma RenderKeepsHead(body: string, aspectRatio: string, pad: string)
    requires body != [] && !IsSpace(body[0]) && AllSpace(pad)
    ensures body + "Aspect ratio" <= Render(body, aspectRatio, pad)
    ensures Tidy(aspectRatio) ==> Render(body, aspectRatio, pad) == body + AspectLabel + aspectRatio
    ensures Tidy(aspectRatio) ==> EndsWith(Render(body, aspectRatio, pad), AspectLabel + aspectRatio)
  {
    RenderKeepsLabel(body, aspectRatio, pad);
    if Tidy(aspectRatio) {
      RenderOfTidyRatio(body, aspectRatio, pad);
    }
  }

  lemma RenderKeepsLabel(body: string, aspectRatio: string, pad: string)
    requires body != [] && !IsSpace(body[0]) && AllSpace(pad)
    ensures body + "Aspect ratio" <= Render(body, aspectRatio, pad)
    ensures body <= Render(body, aspectRatio, pad)
  {
    var head := body + "Aspect ratio";
    assert head[0] == body[0];
    assert head[|head| - 1] == 'o';
    var rest := " " + aspectRatio + pad;
    assert AspectLabel == "Aspect ratio" + " ";
    assert "\n" + body + AspectLabel + aspectRatio + pad == "\n" + (head + rest);
    TrimStartDropsLead("\n", head + rest);
    TrimEndKeepsUpToLast(head, rest);
  }

  lemma RenderOfTidyRatio(body: string, aspectRatio: string, pad: string)
    requires body != [] && !IsSpace(body[0]) && AllSpace(pad) && Tidy(aspectRatio)
    ensures Render(body, aspectRatio, pad) == body + AspectLabel + aspectRatio
    ensures EndsWith(Render(body, aspectRatio, pad), AspectLabel + aspectRatio)
  {
    TrimOfLabelled(body, AspectLabel, aspectRatio, pad);
  }

  /** Trimming a line break, a body, a tag, a tidy value and padding
      leaves the body, the tag and the value. */
  lemma TrimOfLabelled(body: string, tag: string, value: string, pad: string)
    requires body != [] && !IsSpace(body[0]) && AllSpace(pad) && Tidy(value)
    ensures Trim("\n" + body + tag + value + pad) == body + tag + value
    ensures EndsWith(body + tag + value, tag + value)
  {
    var mid := body + tag + value;
    assert mid[0] == body[0];
    assert mid[|mid| - 1] == value[|value| - 1];
    RegroupMiddle("\n", body, tag, value, pad);
    TrimOfPadded("\n", mid, pad);
    EndsWithSuffix(body, tag + value);
  }

  lemma RegroupMiddle(a: string, b: string, c: string, d: string, e: string)
    ensures a + b + c + d + e == a + (b + c + d) + e
    ensures b + (c + d) == b + c + d
  {
  }

  lemma EndsWithSuffix(s: string, t: string)
    ensures EndsWith(s + t, t)
  {
    assert (s + t)[|s|..] == t;
  }

  // ---------------------------------------------------------------------
  // Quick mode

  datatype Preset = WhiteBackground | StillLife | OnModel | Lifestyle | Luxury | CloseUp

  /** The key of each preset in the presets table. */
  function PresetKey(p: Preset): string {
    match p
    case WhiteBackground => "white-background"
    case StillLife => "still-life"
    case OnModel => "on-model"
    case Lifestyle => "lifestyle"
    case Luxury => "luxury"
    case CloseUp => "close-up"
  }

  /** An own-property lookup in the presets table. */
  function PresetFromKey(key: string): (r: Option<Preset>)
    ensures r.Some? ==> PresetKey(r.value) == key
  {
    if key == "white-background" then Some(WhiteBackground)
    else if key == "still-life" then Some(StillLife)
    else if key == "on-model" then Some(OnModel)
    else if key == "lifestyle" then Some(Lifestyle)
    else if key == "luxury" then Some(Luxury)
    else if key == "close-up" then Some(CloseUp)
    else None
  }

  /** Every preset is found under its own key. */
  lemma PresetKeyRoundTrip(p: Preset)
    ensures PresetFromKey(PresetKey(p)) == Some(p)
  {
  }

  /** The rules after the shared header, the TASK heading and the words
      before the jewelry type. */
  function Preamble(p: Preset): string {
    match p
    case WhiteBackground =>
      "- Original gemstones, metals, patterns must not change\n- Only background becomes pure white (RGB 255, 255, 255)\n\nTASK:\nProfessional e-commerce product photo of the "
    case StillLife =>
      "- Original materials and craftsmanship preserved\n\nTASK:\nArtistic still life composition featuring the "
    case OnModel =>
      "- Jewelry is THE FOCUS, not the model\n\nTASK:\nProfessional lifestyle photo showing "
    case Lifestyle =>
      "- Natural setting enhances but doesn't overshadow\n\nTASK:\nLifestyle photo of "
    case Luxury =>
      "- Luxury aesthetic enhances, never alters\n\nTASK:\nUltra-luxury editorial photo of "
    case CloseUp =>
      "- Macro detail shows authentic craftsmanship\n\nTASK:\nExtreme close-up macro photography of "
  }

  /** From the jewelry type to the gendered composition or styling phrase. */
  function Interlude(p: Preset, women: bool): string {
    match p
    case WhiteBackground =>
      " on clean white background.\n\nSTYLE: Clean, minimal, professional e-commerce\nLIGHTING: Soft even studio lighting, no harsh shadows\nCOMPOSITION: Centered, "
    case StillLife =>
      " displayed on natural stone surfaces.\n\nENVIRONMENT: Natural stone display (marble, slate, or granite)\nSTYLING: Organic elements (dried flowers, crystals, natural textures)\nLIGHTING: Soft natural daylight, elegant shadows\nMOOD: Sophisticated, organic luxury\nCOMPOSITION: "
    case OnModel =>
      " worn by " + Wearer(women) + AfterWearer(women)
    case Lifestyle =>
      " in natural, aspirational setting.\n\nENVIRONMENT: Natural outdoor or elegant indoor setting\nMOOD: Aspirational, authentic, emotionally engaging\nLIGHTING: Natural soft lighting (golden hour or diffused daylight)\nSTYLING: "
    case Luxury =>
      ", highest-end presentation.\n\nSTYLE: Vogue, Harper's Bazaar editorial aesthetic\nLIGHTING: Dramatic, sculptural, museum-quality\nENVIRONMENT: Luxurious setting (velvet, silk, marble, gold accents)\nMOOD: Exclusive, sophisticated, timeless elegance\nCOMPOSITION: "
    case CloseUp =>
      ", showcasing intricate details.\n\nFOCUS: Gemstone facets, metal texture, craftsmanship details\nLIGHTING: Precision lighting to reveal depth, sparkle, texture\nCOMPOSITION: "
  }

  /** Who wears the jewelry in the on-model task line. */
  function Wearer(women: bool): string {
    if women then "elegant woman" else "sophisticated man"
  }

  /** The on-model model line and styling, up to the composition phrase. */
  function AfterWearer(women: bool): string {
    ".\n\nMODEL: "
    + (if women then "Professional female model, 25-35 years old" else "Professional male model, 28-40 years old")
    + "\nSTYLING: Timeless, elegant, complementing jewelry without competing\nCOMPOSITION: Jewelry as primary focus, "
  }

  /** The phrase chosen by `gender === 'women'`. */
  function StylePhrase(p: Preset, women: bool): string {
    match p
    case WhiteBackground => if women then "elegant feminine styling" else "refined masculine styling"
    case StillLife => if women then "Feminine elegance" else "Masculine refinement"
    case OnModel => if women then "graceful hand/body positioning" else "confident masculine presence"
    case Lifestyle => if women then "Feminine, elegant, relatable luxury" else "Masculine, refined, " + "authentic sophistication"
    case Luxury => if women then "Haute couture feminine luxury" else "Distinguished masculine prestige"
    case CloseUp => if women then "Delicate feminine details" else "Bold masculine craftsmanship"
  }

  /** The remaining lines, up to the aspect-ratio label. */
  function Coda(p: Preset): string {
    match p
    case WhiteBackground =>
      "\nFOCUS: Product clarity, true colors, sharp details\n\nOUTPUT: High-resolution product photo, "
    case StillLife =>
      "\n\nOUTPUT: Editorial still life photo, "
    case OnModel =>
      "\nLIGHTING: Professional studio lighting, flattering and clear\nBACKGROUND: Soft neutral tones (cream, taupe, soft grey)\n\nOUTPUT: Professional lifestyle photo, "
    case Lifestyle =>
      "\nCOMPOSITION: Jewelry integrated naturally into lifestyle moment\n\nOUTPUT: Lifestyle editorial photo, "
    case Luxury =>
      "\n\nOUTPUT: Luxury editorial photo, "
    case CloseUp =>
      "\nDEPTH: Shallow depth of field, artistic bokeh\nQUALITY: Ultra-sharp focus on key details\n\nOUTPUT: Macro detail photo, "
  }

  /** A preset template up to the aspect-ratio label. */
  function QuickBody(p: Preset, jewelryType: string, women: bool): string {
    Header + Preamble(p) + jewelryType + Interlude(p, women) + StylePhrase(p, women) + Coda(p)
  }

  /** The trimmed text of one preset. */
  function PresetText(p: Preset, jewelryType: string, women: bool, aspectRatio: string): string {
    Render(QuickBody(p, jewelryType, women), aspectRatio, QuickPad)
  }

  function IsWomen(gender: string): bool {
    gender == "women"
  }

  /** `presetId || 'white-background'` */
  function PresetKeyOf(options: PromptOptions): string {
    OrDefault(options.presetId, PresetKey(WhiteBackground))
  }

  /** The preset the options select; an id that is not a key of the table
      selects the white-background preset. */
  function SelectedPreset(options: PromptOptions): Preset
  {
    PresetFromKey(PresetKeyOf(options)).GetOr(WhiteBackground)
  }

  /** buildQuickPrompt, with an own-property lookup of the preset id. */
  function BuildQuickPrompt(options: PromptOptions): (r: BuiltPrompt)
    ensures Header <= r.prompt && Contains(r.prompt, options.jewelryType)
    ensures r.negativePrompt == BaseNegativePrompt
  {
    var p := SelectedPreset(options);
    var women := IsWomen(options.gender);
    PadsAreSpace();
    RenderedShape(Header, Preamble(p), options.jewelryType, Interlude(p, women), StylePhrase(p, women), Coda(p),
      AspectRatioOf(options), QuickPad);
    BuiltPrompt(PresetText(p, options.jewelryType, women, AspectRatioOf(options)), BaseNegativePrompt)
  }

  lemma HeaderStartsBody(body: string, rest: string)
    requires body == Header + rest
    ensures body != [] && body[0] == 'C' && !IsSpace(body[0]) && Header <= body
  {
    assert Header[0] == 'C';
    assert body[0] == Header[0];
  }

  /** Whatever the template text holds before the aspect ratio, the
      rendered prompt holds too. */
  lemma RenderedContains(body: string, before: string, x: string, after: string, aspectRatio: string, pad: string)
    requires body == before + x + after && body != [] && !IsSpace(body[0]) && AllSpace(pad)
    ensures Contains(Render(body, aspectRatio, pad), x)
  {
    RenderKeepsLabel(body, aspectRatio, pad);
    OccursInConcat(before, x, after);
    OccursInLonger(body, Render(body, aspectRatio, pad), x, |before|);
  }

  /** The groupings of a six-part template that the proofs use. */
  lemma Regroup(a: string, b: string, c: string, d: string, e: string, f: string)
    ensures a + b + c + d + e + f == a + (b + c + d + e + f)
    ensures a + b + c + d + e + f == (a + b) + c + (d + e + f)
    ensures a + b + c + d + e + f == (a + b + c + d) + e + f
  {
  }

  /** Every template is the shared header followed by five parts; the third
      and the fifth carry the caller's values. Rendered, it starts with the
      header, keeps the text up to the aspect-ratio label, holds both
      values and, for a tidy aspect ratio, ends with the label and it. */
  lemma RenderedShape(a: string, b: string, c: string, d: string, e: string, f: string, aspectRatio: string, pad: string)
    requires a == Header && AllSpace(pad)
    ensures var r := Render(a + b + c + d + e + f, aspectRatio, pad);
      && Header <= r
      && a + b + c + d + e + f + "Aspect ratio" <= r
      && Contains(r, c)
      && Contains(r, e)
      && (Tidy(aspectRatio) ==> EndsWith(r, AspectLabel + aspectRatio))
  {
    var body := a + b + c + d + e + f;
    Regroup(a, b, c, d, e, f);
    HeaderStartsBody(body, b + c + d + e + f);
    RenderKeepsHead(body, aspectRatio, pad);
    RenderedContains(body, a + b, c, d + e + f, aspectRatio, pad);
    RenderedContains(body, a + b + c + d, e, f, aspectRatio, pad);
  }

  /** A quick prompt starts with the preservation rules and is the chosen
      preset's text up to the aspect ratio, which ends it when tidy; it
      names the jewelry type and the phrase for the gender. */
  lemma QuickPromptShape(options: PromptOptions)
    ensures var p := SelectedPreset(options);
      var women := IsWomen(options.gender);
      && Header <= BuildQuickPrompt(options).prompt
      && QuickBody(p, options.jewelryType, women) + "Aspect ratio" <= BuildQuickPrompt(options).prompt
      && (Tidy(AspectRatioOf(options)) ==> EndsWith(BuildQuickPrompt(options).prompt, AspectLabel + AspectRatioOf(options)))
      && Contains(BuildQuickPrompt(options).prompt, options.jewelryType)
      && Contains(BuildQuickPrompt(options).prompt, StylePhrase(p, women))
    ensures BuildQuickPrompt(options).negativePrompt == BaseNegativePrompt
  {
    var p := SelectedPreset(options);
    var women := IsWomen(options.gender);
    PadsAreSpace();
    RenderedShape(Header, Preamble(p), options.jewelryType, Interlude(p, women), StylePhrase(p, women), Coda(p),
      AspectRatioOf(options), QuickPad);
  }

  /** With no preset id, an empty one, or one that is not in the table,
      the white-background preset is used. */
  lemma UnknownPresetFallsBack(options: PromptOptions)
    requires options.presetId.None? || PresetFromKey(options.presetId.value).None?
    ensures BuildQuickPrompt(options) == BuildQuickPrompt(options.(presetId := Some("white-background")))
  {
    var other := options.(presetId := Some("white-background"));
    assert PresetKeyOf(other) == "white-background";
    assert SelectedPreset(other) == WhiteBackground;
    assert SelectedPreset(options) == WhiteBackground;
  }

  /** Two texts that share a lead and then go on with different
      characters differ in everything that extends them. */
  lemma ExtensionsDiffer(r1: string, r2: string, lead: string, x1: string, rest1: string, x2: string, rest2: string)
    requires lead + x1 + rest1 <= r1 && lead + x2 + rest2 <= r2
    requires |x1| > 0 && |x2| > 0 && x1[0] != x2[0]
    ensures r1 != r2
  {
    var h1 := lead + x1 + rest1;
    var h2 := lead + x2 + rest2;
    assert h1[|lead|] == x1[0] && h2[|lead|] == x2[0];
    assert r1[|lead|] == h1[|lead|] && r2[|lead|] == h2[|lead|];
  }

  lemma RegroupAfter(a: string, b: string, c: string, d: string, e: string, f: string, g: string)
    ensures a + b + c + d + e + f + g == (a + b + c + d) + e + (f + g)
  {
  }

  lemma RegroupInside(a: string, b: string, c: string, x: string, y: string, z: string, e: string, f: string, g: string)
    ensures a + b + c + (x + y + z) + e + f + g == (a + b + c + x) + y + (z + e + f + g)
  {
  }

  /** The feminine and the other template text of one preset share a lead
      and then go on with different characters: on the model preset at the
      wearer, elsewhere at the styling phrase. */
  lemma GenderSplit(p: Preset, jewelryType: string)
    returns (lead: string, x1: string, rest1: string, x2: string, rest2: string)
    ensures QuickBody(p, jewelryType, true) + "Aspect ratio" == lead + x1 + rest1
    ensures QuickBody(p, jewelryType, false) + "Aspect ratio" == lead + x2 + rest2
    ensures |x1| > 0 && |x2| > 0 && x1[0] != x2[0]
  {
    if p == OnModel {
      lead := Header + Preamble(OnModel) + jewelryType + " worn by ";
      x1, x2 := Wearer(true), Wearer(false);
      rest1, rest2 := OnModelTail(true), OnModelTail(false);
      OnModelSplitAt(jewelryType, true);
      OnModelSplitAt(jewelryType, false);
      WearersDiffer();
    } else {
      lead, x1, rest1, x2, rest2 := StyledSplit(p, jewelryType);
    }
  }

  function OnModelTail(women: bool): string {
    AfterWearer(women) + StylePhrase(OnModel, women) + Coda(OnModel) + "Aspect ratio"
  }

  lemma OnModelSplitAt(jewelryType: string, women: bool)
    ensures QuickBody(OnModel, jewelryType, women) + "Aspect ratio"
      == Header + Preamble(OnModel) + jewelryType + " worn by " + Wearer(women) + OnModelTail(women)
  {
    assert Interlude(OnModel, women) == " worn by " + Wearer(women) + AfterWearer(women);
    RegroupInside(Header, Preamble(OnModel), jewelryType, " worn by ", Wearer(women), AfterWearer(women),
      StylePhrase(OnModel, women), Coda(OnModel), "Aspect ratio");
  }

  lemma StyledSplit(p: Preset, jewelryType: string)
    returns (lead: string, x1: string, rest1: string, x2: string, rest2: string)
    requires p != OnModel
    ensures QuickBody(p, jewelryType, true) + "Aspect ratio" == lead + x1 + rest1
    ensures QuickBody(p, jewelryType, false) + "Aspect ratio" == lead + x2 + rest2
    ensures |x1| > 0 && |x2| > 0 && x1[0] != x2[0]
  {
    lead := StyledLead(p, jewelryType);
    x1, x2 := StylePhrase(p, true), StylePhrase(p, false);
    rest1, rest2 := Coda(p) + "Aspect ratio", Coda(p) + "Aspect ratio";
    StyledSplitAt(p, jewelryType, true);
    StyledSplitAt(p, jewelryType, false);
    StyleInitialDiffers(p);
  }

  function StyledLead(p: Preset, jewelryType: string): string {
    Header + Preamble(p) + jewelryType + Interlude(p, true)
  }

  lemma StyledSplitAt(p: Preset, jewelryType: string, women: bool)
    requires p != OnModel
    ensures QuickBody(p, jewelryType, women) + "Aspect ratio"
      == StyledLead(p, jewelryType) + StylePhrase(p, women) + (Coda(p) + "Aspect ratio")
  {
    InterludeIgnoresGender(p);
    RegroupAfter(Header, Preamble(p), jewelryType, Interlude(p, women), StylePhrase(p, women), Coda(p), "Aspect ratio");
  }

  lemma WearersDiffer()
    ensures |Wearer(true)| > 0 && |Wearer(false)| > 0 && Wearer(true)[0] != Wearer(false)[0]
  {
  }

  lemma InterludeIgnoresGender(p: Preset)
    requires p != OnModel
    ensures Interlude(p, true) == Interlude(p, false)
  {
  }

  lemma StyleInitialDiffers(p: Preset)
    requires p != OnModel
    ensures |StylePhrase(p, true)| > 0 && |StylePhrase(p, false)| > 0 && StylePhrase(p, true)[0] != StylePhrase(p, false)[0]
  {
    match p
    case WhiteBackground => assert StylePhrase(p, true)[0] == 'e' && StylePhrase(p, false)[0] == 'r';
    case StillLife => assert StylePhrase(p, true)[0] == 'F' && StylePhrase(p, false)[0] == 'M';
    case OnModel =>
    case Lifestyle => assert StylePhrase(p, true)[0] == 'F' && StylePhrase(p, false)[0] == 'M';
    case Luxury => assert StylePhrase(p, true)[0] == 'H' && StylePhrase(p, false)[0] == 'D';
    case CloseUp => assert StylePhrase(p, true)[0] == 'D' && StylePhrase(p, false)[0] == 'B';
  }

  /** Only the exact string "women" selects the feminine wording: a prompt
      built for "women" differs from one built for any other gender. */
  lemma GenderChangesQuickPrompt(options: PromptOptions, otherGender: string)
    requires options.gender == "women" && otherGender != "women"
    ensures BuildQuickPrompt(options).prompt != BuildQuickPrompt(options.(gender := otherGender)).prompt
  {
    var other := options.(gender := otherGender);
    var p := SelectedPreset(options);
    assert SelectedPreset(other) == p;
    assert IsWomen(options.gender) && !IsWomen(otherGender);
    QuickPromptShape(options);
    QuickPromptShape(other);
    var lead, x1, rest1, x2, rest2 := GenderSplit(p, options.jewelryType);
    ExtensionsDiffer(BuildQuickPrompt(options).prompt, BuildQuickPrompt(other).prompt, lead, x1, rest1, x2, rest2);
  }

  // ---------------------------------------------------------------------
  // The preset lookup as written

  /** What `presets[key]` evaluates to on a plain object literal. */
  datatype PropertyValue = OwnText(text: string) | InheritedMember(name: string) | Undefined

  /** The members every object literal inherits from Object.prototype. */
  const ObjectPrototypeMembers: set<string> := {
    "constructor", "hasOwnProperty", "isPrototypeOf", "propertyIsEnumerable",
    "toLocaleString", "toString", "valueOf", "__proto__",
    "__defineGetter__", "__defineSetter__", "__lookupGetter__", "__lookupSetter__"
  }

  /** `presets[key]`, including the inherited members. */
  function PresetsLookup(key: string, jewelryType: string, women: bool, aspectRatio: string): PropertyValue {
    match PresetFromKey(key)
    case Some(p) => OwnText(PresetText(p, jewelryType, women, aspectRatio))
    case None => if key in ObjectPrototypeMembers then InheritedMember(key) else Undefined
  }

  /** JavaScript truthiness of a property value; inherited members are
      functions or objects, all truthy. */
  predicate Truthy(v: PropertyValue) {
    match v
    case OwnText(t) => |t| > 0
    case InheritedMember(_) => true
    case Undefined => false
  }

  /** The `prompt` field of buildQuickPrompt as written:
      `presets[presetId || 'white-background'] || presets['white-background']`. */
  function QuickPromptAsWritten(options: PromptOptions): (r: PropertyValue)
    ensures r != Undefined
  {
    var women := IsWomen(options.gender);
    var ratio := AspectRatioOf(options);
    var found := PresetsLookup(PresetKeyOf(options), options.jewelryType, women, ratio);
    if Truthy(found) then found
    else PresetsLookup(PresetKey(WhiteBackground), options.jewelryType, women, ratio)
  }

  /** A preset id naming an inherited member bypasses the fallback: the
      prompt is that member, a function, not any preset's text. */
  lemma InheritedPresetIdEscapesFallback(options: PromptOptions)
    requires options.presetId == Some("toString")
    ensures QuickPromptAsWritten(options) == InheritedMember("toString")
  {
    assert PresetKeyOf(options) == "toString";
    assert PresetFromKey("toString").None?;
    assert "toString" in ObjectPrototypeMembers;
  }

  lemma HeaderNonEmpty()
    ensures |Header| > 0
  {
  }

  /** Away from the inherited member names, the lookup as written and the
      own-property lookup agree. */
  lemma AsWrittenAgreesOffPrototype(options: PromptOptions)
    requires PresetKeyOf(options) !in ObjectPrototypeMembers
    ensures QuickPromptAsWritten(options) == OwnText(BuildQuickPrompt(options).prompt)
  {
    QuickPromptShape(options);
    HeaderNonEmpty();
    assert |BuildQuickPrompt(options).prompt| > 0;
    if PresetFromKey(PresetKeyOf(options)).Some? {
      FoundPresetIsUsed(options);
    } else {
      MissingPresetFallsBack(options);
    }
  }

  lemma FoundPresetIsUsed(options: PromptOptions)
    requires PresetFromKey(PresetKeyOf(options)).Some? && |BuildQuickPrompt(options).prompt| > 0
    ensures QuickPromptAsWritten(options) == OwnText(BuildQuickPrompt(options).prompt)
  {
    var p := PresetFromKey(PresetKeyOf(options)).value;
    assert SelectedPreset(options) == p;
  }

  lemma MissingPresetFallsBack(options: PromptOptions)
    requires PresetFromKey(PresetKeyOf(options)).None? && PresetKeyOf(options) !in ObjectPrototypeMembers
    ensures QuickPromptAsWritten(options) == OwnText(BuildQuickPrompt(options).prompt)
  {
    var fallback := WhiteBackground;
    LookupOfMissingKey(PresetKeyOf(options), options.jewelryType, options.gender, AspectRatioOf(options));
    UndefinedFallsBack(options, fallback);
    LookupOfKey(fallback, options.jewelryType, options.gender, AspectRatioOf(options));
    SelectedPresetText(options, fallback);
  }

  lemma SelectedPresetText(options: PromptOptions, p: Preset)
    requires SelectedPreset(options) == p
    ensures BuildQuickPrompt(options).prompt == PresetText(p, options.jewelryType, IsWomen(options.gender), AspectRatioOf(options))
  {
  }

  /** A key that is neither a preset nor an inherited member is undefined. */
  lemma LookupOfMissingKey(key: string, jewelryType: string, gender: string, aspectRatio: string)
    requires PresetFromKey(key).None? && key !in ObjectPrototypeMembers
    ensures PresetsLookup(key, jewelryType, IsWomen(gender), aspectRatio) == Undefined
  {
  }

  lemma UndefinedFallsBack(options: PromptOptions, fallback: Preset)
    requires fallback == WhiteBackground
    requires PresetsLookup(PresetKeyOf(options), options.jewelryType, IsWomen(options.gender), AspectRatioOf(options)) == Undefined
    ensures SelectedPreset(options) == fallback
    ensures QuickPromptAsWritten(options)
      == PresetsLookup(PresetKey(fallback), options.jewelryType, IsWomen(options.gender), AspectRatioOf(options))
  {
  }

  /** The lookup of a preset's own key yields that preset's text. */
  lemma LookupOfKey(p: Preset, jewelryType: string, gender: string, aspectRatio: string)
    ensures PresetsLookup(PresetKey(p), jewelryType, IsWomen(gender), aspectRatio)
      == OwnText(PresetText(p, jewelryType, IsWomen(gender), aspectRatio))
  {
    PresetKeyRoundTrip(p);
  }

  /** With the own-property lookup every preset id yields one of the six
      preset texts. */
  lemma QuickPromptIsAPresetText(options: PromptOptions)
    ensures exists p: Preset ::
      BuildQuickPrompt(options).prompt == PresetText(p, options.jewelryType, IsWomen(options.gender), AspectRatioOf(options))
  {
    var p := SelectedPreset(options);
    assert BuildQuickPrompt(options).prompt == PresetText(p, options.jewelryType, IsWomen(options.gender), AspectRatioOf(options));
  }

  // ---------------------------------------------------------------------
  // Selective mode

  /** The three style lines of selective mode. */
  function SelectiveSlots(model: string, location: string, mood: string): string {
    "MODEL STYLE: " + model + "\nLOCATION: " + location + "\nMOOD: " + mood
  }

  /** The words after the jewelry type in the selective and advanced task
      lines. */
  function ForGender(gender: string): string {
    " for " + gender + ".\n\n"
  }

  const SelectiveLead := "- Original design is sacred, only context changes\n\nTASK:\nProfessional photo of "
  const SelectiveCoda := "\nCOMPOSITION: Balanced, jewelry as focal point\nQUALITY: High-end commercial photography\n\nOUTPUT: Professional jewelry photo, "

  function SelectiveBody(jewelryType: string, gender: string, slots: string): string {
    Header + SelectiveLead + jewelryType + ForGender(gender) + slots + SelectiveCoda
  }

  /** The style lines with `model || 'professional'`, `location || 'studio'`
      and `mood || 'natural'`. */
  function SlotsOf(options: PromptOptions): string {
    SelectiveSlots(OrDefault(options.model, "professional"), OrDefault(options.location, "studio"),
      OrDefault(options.mood, "natural"))
  }

  /** buildSelectivePrompt; lighting, angle and pose are not used. */
  function BuildSelectivePrompt(options: PromptOptions): (r: BuiltPrompt)
    ensures Header <= r.prompt && Contains(r.prompt, options.jewelryType)
    ensures r.negativePrompt == BaseNegativePrompt
  {
    var body := SelectiveBody(options.jewelryType, options.gender, SlotsOf(options));
    PadsAreSpace();
    RenderedShape(Header, SelectiveLead, options.jewelryType, ForGender(options.gender), SlotsOf(options), SelectiveCoda,
      AspectRatioOf(options), ShortPad);
    BuiltPrompt(Render(body, AspectRatioOf(options), ShortPad), BaseNegativePrompt)
  }

  /** A selective prompt starts with the rules and carries the jewelry type
      and the three style lines, each the given value or its default. */
  lemma SelectivePromptShape(options: PromptOptions)
    ensures var r := BuildSelectivePrompt(options).prompt;
      && Header <= r
      && Contains(r, SlotsOf(options))
      && Contains(r, options.jewelryType)
      && (Tidy(AspectRatioOf(options)) ==> EndsWith(r, AspectLabel + AspectRatioOf(options)))
    ensures BuildSelectivePrompt(options).negativePrompt == BaseNegativePrompt
  {
    PadsAreSpace();
    RenderedShape(Header, SelectiveLead, options.jewelryType, ForGender(options.gender), SlotsOf(options), SelectiveCoda,
      AspectRatioOf(options), ShortPad);
  }

  // ---------------------------------------------------------------------
  // Advanced mode

  const DefaultCustomPrompt := "High-quality professional jewelry photography"
  const AdvancedLead := "\nTASK:\nProfessional photo of "
  const AdvancedCoda := "\n\nOUTPUT: "

  function AdvancedBody(jewelryType: string, gender: string, description: string): string {
    Header + AdvancedLead + jewelryType + ForGender(gender) + description + AdvancedCoda
  }

  /** `customPrompt || 'High-quality professional jewelry photography'` */
  function DescriptionOf(options: PromptOptions): string {
    OrDefault(options.customPrompt, DefaultCustomPrompt)
  }

  /** buildAdvancedPrompt */
  function BuildAdvancedPrompt(options: PromptOptions): (r: BuiltPrompt)
    ensures Header <= r.prompt && Contains(r.prompt, options.jewelryType)
    ensures r.negativePrompt == BaseNegativePrompt
  {
    var body := AdvancedBody(options.jewelryType, options.gender, DescriptionOf(options));
    PadsAreSpace();
    RenderedShape(Header, AdvancedLead, options.jewelryType, ForGender(options.gender), DescriptionOf(options), AdvancedCoda,
      AspectRatioOf(options), ShortPad);
    BuiltPrompt(Render(body, AspectRatioOf(options), ShortPad), BaseNegativePrompt)
  }

  /** An advanced prompt starts with the rules and carries the jewelry type
      and the custom description verbatim, or the default one when it is
      missing or empty; a tidy aspect ratio ends it. */
  lemma AdvancedPromptShape(options: PromptOptions)
    ensures var r := BuildAdvancedPrompt(options).prompt;
      && Header <= r
      && Contains(r, DescriptionOf(options))
      && Contains(r, options.jewelryType)
      && (Tidy(AspectRatioOf(options)) ==> EndsWith(r, AspectLabel + AspectRatioOf(options)))
    ensures BuildAdvancedPrompt(options).negativePrompt == BaseNegativePrompt
  {
    PadsAreSpace();
    RenderedShape(Header, AdvancedLead, options.jewelryType, ForGender(options.gender), DescriptionOf(options), AdvancedCoda,
      AspectRatioOf(options), ShortPad);
  }

  lemma DefaultRatioLabel()
    ensures Tidy(DefaultAspectRatio) && AspectLabel + DefaultAspectRatio == "Aspect ratio 9:16"
  {
  }

  /** Without an aspect ratio every mode ends its prompt with the 9:16
      default. */
  lemma DefaultAspectRatioEndsPrompts(options: PromptOptions)
    requires options.aspectRatio.None?
    ensures EndsWith(BuildQuickPrompt(options).prompt, "Aspect ratio 9:16")
    ensures EndsWith(BuildSelectivePrompt(options).prompt, "Aspect ratio 9:16")
    ensures EndsWith(BuildAdvancedPrompt(options).prompt, "Aspect ratio 9:16")
  {
    DefaultRatioLabel();
    assert AspectRatioOf(options) == DefaultAspectRatio;
    QuickPromptShape(options);
    SelectivePromptShape(options);
    AdvancedPromptShape(options);
  }
}
