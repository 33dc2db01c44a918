/**
 * The text logic of the fundraiser chat bot (2025_Andree_Fundraiser_MartinHS_Band.py):
 * the Spanish test, the first-match FAQ router with its English and Spanish
 * canned answers, the prompt style, the 160-character SMS cap and the
 * handling of an empty message body in the two webhooks. The language-model
 * call is a parameter: its answer, or `None` when it failed.
 */
module FundraiserBot {
  import opened Wrappers
  import opened Text

  // ---------------------------------------------------------------- language

  /** The substrings whose presence in the lower-cased text marks it as Spanish. */
  const SpanishMarkers: seq<string> := [
    "¿", "¡", "qué", "como", "cómo", "cuánto", "cuanto", "dónde", "para qué", "para que",
    "tarjeta", "mexicana", "donar", "donación", "pago", "ayudar", "compartir", "deducible"
  ]

  /**
   * `is_spanish`: some marker occurs in the lower-cased text. An inverted
   * question or exclamation mark is enough, and the empty text is never Spanish.
   */
  predicate IsSpanish(text: string)
    ensures Contains(text, "¿") || Contains(text, "¡") ==> IsSpanish(text)
    ensures text == [] ==> !IsSpanish(text)
  {
    LowerKeepsMark(text, "¿");
    LowerKeepsMark(text, "¡");
    exists m | m in SpanishMarkers :: Contains(Lower(text), m)
  }

  /** A mark that lower-casing leaves alone is still found in the lower-cased text. */
  lemma LowerKeepsMark(text: string, mark: string)
    requires Lower(mark) == mark
    ensures Contains(text, mark) ==> Contains(Lower(text), mark)
  {
    if Contains(text, mark) {
      var i :| 0 <= i <= |text| && OccursAt(text, mark, i);
      var l := Lower(text);
      forall k | 0 <= k < |mark| ensures l[i + k] == mark[k] {
        assert text[i + k] == mark[k];
        assert l[i + k] == LowerChar(mark[k]) == Lower(mark)[k];
      }
      assert l[i..i + |mark|] == mark;
      assert OccursAt(l, mark, i);
    }
  }

  /** The test ignores case: lower-casing the text first changes nothing. */
  lemma IsSpanishOfLower(text: string)
    ensures IsSpanish(Lower(text)) == IsSpanish(text)
  {
    LowerIdempotent(text);
  }

  /** Lower-casing works character by character, so it distributes over concatenation. */
  lemma LowerAppend(a: string, b: string)
    ensures Lower(a + b) == Lower(a) + Lower(b)
  {
  }

  /** A Spanish text stays Spanish inside a longer message. */
  lemma IsSpanishExtend(a: string, text: string, b: string)
    requires IsSpanish(text)
    ensures IsSpanish(a + text + b)
  {
    var m :| m in SpanishMarkers && Contains(Lower(text), m);
    LowerAppend(a, text);
    LowerAppend(a + text, b);
    ContainsExtend(Lower(a), Lower(text), Lower(b), m);
  }

  // ---------------------------------------------------------------- patterns

  /**
   * A character `\w` matches: ASCII letters, digits and `_`, and the Latin-1
   * characters Python counts as alphanumeric. Characters beyond Latin-1 are
   * taken as non-word characters.
   */
  predicate IsWordChar(c: char) {
    || 'a' <= c <= 'z' || 'A' <= c <= 'Z' || '0' <= c <= '9' || c == '_'
    || c == '\U{aa}' || c == '\U{b2}' || c == '\U{b3}' || c == '\U{b5}' || c == '\U{b9}' || c == '\U{ba}'
    || ('\U{bc}' <= c <= '\U{be}')
    || ('\U{c0}' <= c <= '\U{ff}' && c != '\U{d7}' && c != '\U{f7}')
  }

  /** The end of a maximal run of blanks starting at `i` (what a greedy `\s+` consumes). */
  function SkipSpaces(t: string, i: nat): (j: nat)
    requires i <= |t|
    ensures i <= j <= |t|
    ensures forall k | i <= k < j :: IsSpace(t[k])
    ensures j == |t| || !IsSpace(t[j])
    decreases |t| - i
  {
    if i < |t| && IsSpace(t[i]) then SkipSpaces(t, i + 1) else i
  }

  /**
   * A pattern `\bw1\s+w2 ... \s+wn\b`, given by its words. Every word of the
   * patterns starts and ends with a word character and has no blank, so a
   * greedy `\s+` never needs to give characters back, and `\b` before the
   * first word (after the last) means no word character just before (after).
   */
  type Phrase = seq<string>

  /** Where the words of `p` end when they match from position `i` on, blanks of at least one between words. */
  function WordsFrom(t: string, p: Phrase, i: nat): (e: Option<nat>)
    requires i <= |t|
    ensures e.Some? ==> i <= e.value <= |t|
    decreases |p|
  {
    if p == [] || !OccursAt(t, p[0], i) then None
    else if |p| == 1 then Some(i + |p[0]|)
    else
      var after := i + |p[0]|;
      var j := SkipSpaces(t, after);
      if j == after then None else WordsFrom(t, p[1..], j)
  }

  /** The pattern matches at `i`: word boundaries around the words. */
  predicate PhraseAt(t: string, p: Phrase, i: nat)
    requires i <= |t|
  {
    && (i == 0 || !IsWordChar(t[i - 1]))
    && var e := WordsFrom(t, p, i);
    && e.Some?
    && (e.value == |t| || !IsWordChar(t[e.value]))
  }

  /** `re.search` for one pattern, scanning the start positions from `i` on. */
  function SearchFrom(t: string, p: Phrase, i: nat): (found: bool)
    requires i <= |t|
    ensures found <==> exists k | i <= k <= |t| :: PhraseAt(t, p, k)
    decreases |t| - i
  {
    if PhraseAt(t, p, i) then true
    else if i == |t| then false
    else
      var r := SearchFrom(t, p, i + 1);
      assert r ==> exists k | i <= k <= |t| :: PhraseAt(t, p, k);
      r
  }

  /** `match_any`: some pattern of the list matches somewhere in the text. */
  function MatchAny(t: string, ps: seq<Phrase>): (found: bool)
    ensures found <==> exists p | p in ps :: exists k | 0 <= k <= |t| :: PhraseAt(t, p, k)
    decreases |ps|
  {
    if ps == [] then false
    else if SearchFrom(t, ps[0], 0) then assert ps[0] in ps; true
    else
      var r := MatchAny(t, ps[1..]);
      assert forall p | p in ps[1..] :: p in ps;
      assert forall p | p in ps :: p == ps[0] || p in ps[1..];
      r
  }

  // ---------------------------------------------------------------- intents

  datatype Intent = MoneyFor | Amount | MexCard | AboutAndree | Tax | Deadline | HowDonate | Share | Thanks | Greeting

  /** The order in which the router tries the intents, the same for SMS and WhatsApp. */
  const IntentOrder: seq<Intent> := [MoneyFor, Amount, MexCard, AboutAndree, Tax, Deadline, HowDonate, Share, Thanks, Greeting]

  /**
   * The patterns of each intent, one phrase per alternative of the source's
   * pattern: a character class such as `[aá]` or a group `(debo|puedo)`
   * becomes one phrase per choice.
   */
  function Patterns(i: Intent): seq<Phrase> {
    match i
    case MoneyFor => [
      ["what", "is", "the", "money", "for"], ["what", "is", "it", "for"], ["purpose"],
      ["para", "qué", "es", "el", "dinero"], ["para", "que", "es", "el", "dinero"], ["para", "qué", "es"]]
    case Amount => [
      ["how", "much", "should", "i", "donate"], ["how", "much"], ["amount"], ["minimum"],
      ["cuanto", "debo", "donar"], ["cuanto", "puedo", "donar"],
      ["cuánto", "debo", "donar"], ["cuánto", "puedo", "donar"], ["monto"]]
    case MexCard => [
      ["mexican", "card"], ["mexico", "card"], ["works", "in", "mexico"],
      ["tarjeta", "mexicana"], ["funciona", "en", "mexico"], ["funciona", "en", "méxico"], ["acepta", "tarjeta"]]
    case AboutAndree => [
      ["who", "is", "andree"], ["tell", "me", "about", "andree"],
      ["acerca", "de", "andree"], ["quien", "es", "andree"], ["quién", "es", "andree"]]
    case Tax => [["tax", "deductible"], ["tax"], ["receipt"], ["deducible"], ["recibo"], ["factura"]]
    case Deadline => [
      ["deadline"], ["when", "does", "it", "end"], ["by", "when"], ["goal"],
      ["meta"], ["fecha", "limite"], ["fecha", "límite"], ["cuando", "termina"], ["cuándo", "termina"]]
    case HowDonate => [
      ["how", "do", "i", "donate"], ["donate"], ["donation"], ["link"],
      ["cómo", "donar"], ["como", "donar"], ["enlace"], ["donacion"], ["donación"]]
    case Share => [["can", "i", "share"], ["share"], ["puedo", "compartir"], ["compartir"]]
    case Thanks => [["thanks"], ["thank", "you"], ["gracias"]]
    case Greeting => [["hi"], ["hello"], ["hey"], ["hola"], ["holo"], ["buenas"]]
  }

  predicate Matches(t: string, i: Intent) {
    MatchAny(t, Patterns(i))
  }

  /** The intent test for one text, as a function of the intent. */
  function MatcherOf(t: string): Intent -> bool {
    (i: Intent) => Matches(t, i)
  }

  /** The first intent of `order` that `matches` accepts, trying them in order. */
  function FirstIntent(matches: Intent -> bool, order: seq<Intent>): (r: Option<Intent>)
    decreases |order|
  {
    if order == [] then None
    else if matches(order[0]) then Some(order[0])
    else FirstIntent(matches, order[1..])
  }

  /**
   * The first match wins: the intent found is the earliest in the order
   * that matches, and there is none exactly when no intent matches.
   */
  lemma {:induction false} FirstIntentSpec(matches: Intent -> bool, order: seq<Intent>)
    ensures FirstIntent(matches, order).None? <==> forall i | i in order :: !matches(i)
    ensures FirstIntent(matches, order).Some? ==>
      exists k | 0 <= k < |order| ::
        && order[k] == FirstIntent(matches, order).value && matches(order[k])
        && forall j | 0 <= j < k :: !matches(order[j])
    decreases |order|
  {
    if order != [] {
      FirstIntentSpec(matches, order[1..]);
      assert forall i | i in order :: i == order[0] || i in order[1..];
      if !matches(order[0]) && FirstIntent(matches, order[1..]).Some? {
        var k :| 0 <= k < |order[1..]| && order[1..][k] == FirstIntent(matches, order[1..]).value && matches(order[1..][k])
          && forall j | 0 <= j < k :: !matches(order[1..][j]);
        assert order[k + 1] == order[1..][k];
        forall j | 0 <= j < k + 1 ensures !matches(order[j]) {
          if j > 0 {
            assert order[j] == order[1..][j - 1];
          }
        }
      }
    }
  }

  // ---------------------------------------------------------------- canned answers

  /** The settings the answers quote: FUNDRAISER_URL, GOAL_USD and the formatted deadline. */
  datatype Config = Config(url: string, goal: string, deadline: string)

  /** An English and a Spanish answer. */
  datatype Variants = Variants(en: string, es: string)

  /** The deadline answers for SMS: goal and date only when both are set. */
  function DeadlineSms(cfg: Config): (v: Variants)
    ensures cfg.deadline != [] && cfg.goal != [] ==>
      && OccursAt(v.en, cfg.goal, 6) && OccursAt(v.en, cfg.deadline, 6 + |cfg.goal| + 19)
      && OccursAt(v.es, cfg.goal, 6) && OccursAt(v.es, cfg.deadline, 6 + |cfg.goal| + 17)
    ensures !(cfg.deadline != [] && cfg.goal != []) ==>
      v == Variants("Please donate when you can: " + cfg.url, "Dona cuando puedas: " + cfg.url)
  {
    if cfg.deadline != [] && cfg.goal != [] then
      var en := "Goal $" + cfg.goal + ". Please donate by " + cfg.deadline + ": " + cfg.url;
      var es := "Meta $" + cfg.goal + ". Dona antes del " + cfg.deadline + ": " + cfg.url;
      PlacedTwo("Goal $", cfg.goal, ". Please donate by ", cfg.deadline, ": ", cfg.url);
      PlacedTwo("Meta $", cfg.goal, ". Dona antes del ", cfg.deadline, ": ", cfg.url);
      Variants(en, es)
    else
      Variants("Please donate when you can: " + cfg.url, "Dona cuando puedas: " + cfg.url)
  }

  /**
   * The deadline answers for WhatsApp, three ways: goal and date when both
   * are set, else the goal alone when it is set, else neither.
   */
  function DeadlineWhatsApp(cfg: Config): (v: Variants)
    ensures cfg.goal != [] ==> OccursAt(v.en, cfg.goal, 13) && OccursAt(v.es, cfg.goal, 20)
    ensures cfg.deadline != [] && cfg.goal != [] ==>
      && OccursAt(v.en, cfg.deadline, 13 + |cfg.goal| + 32)
      && OccursAt(v.es, cfg.deadline, 20 + |cfg.goal| + 32)
    ensures cfg.goal == [] ==>
      v == Variants("You can donate anytime here: " + cfg.url, "Puedes donar en cualquier momento aquí: " + cfg.url)
  {
    if cfg.deadline != [] && cfg.goal != [] then
      var en := "Our goal is $" + cfg.goal + ". If possible, please donate by " + cfg.deadline + ". Link: " + cfg.url;
      var es := "Nuestra meta es de $" + cfg.goal + ". Si es posible, dona antes del " + cfg.deadline + ". Enlace: " + cfg.url;
      PlacedTwo("Our goal is $", cfg.goal, ". If possible, please donate by ", cfg.deadline, ". Link: ", cfg.url);
      PlacedTwo("Nuestra meta es de $", cfg.goal, ". Si es posible, dona antes del ", cfg.deadline, ". Enlace: ", cfg.url);
      Variants(en, es)
    else if cfg.goal != [] then
      var en := "Our goal is $" + cfg.goal + ". You can donate here: " + cfg.url;
      var es := "Nuestra meta es de $" + cfg.goal + ". Puedes donar aquí: " + cfg.url;
      PlacedOne("Our goal is $", cfg.goal, ". You can donate here: ", cfg.url);
      PlacedOne("Nuestra meta es de $", cfg.goal, ". Puedes donar aquí: ", cfg.url);
      Variants(en, es)
    else
      Variants("You can donate anytime here: " + cfg.url, "Puedes donar en cualquier momento aquí: " + cfg.url)
  }

  /** The fixed texts of the SMS answers, in English and Spanish. */
  const SmsFundsEn: string := "Funds help Martin HS band (instruments, uniforms, travel). Donate: "
  const SmsFundsEs: string := "Fondo para la banda de Martin HS (instrumentos, uniformes, viajes). Dona: "
  const SmsAmountEn: string := "Every bit helps! Even $3–$5 adds up. Donate: "
  const SmsAmountEs: string := "¡Todo ayuda! $3–$5 suma. Dona: "
  const SmsMexCardEn: string := "Yes—most cards incl. Mexico work. Try: "
  const SmsMexCardEs: string := "Sí—funcionan tarjetas de México. Prueba: "
  const SmsAboutEn: string := "Andree is a Martin HS sophomore, French horn. Support: "
  const SmsAboutEs: string := "Andree cursa 2º en Martin HS y toca corno. Apoya: "
  const SmsTaxEn: string := "You’ll get an email receipt. Tax treatment varies; ask your tax advisor."
  const SmsTaxEs: string := "Recibirás recibo por email. El tratamiento fiscal varía; consulta a tu asesor."
  const SmsHowToEn: string := "Tap to donate any amount: "
  const SmsHowToEs: string := "Abre el enlace y dona: "
  const SmsShareEn: string := "Yes, please share the link: "
  const SmsShareEs: string := "Sí, por favor comparte el enlace: "
  const SmsThanksEn: string := "Thank you! 🎺"
  const SmsThanksEs: string := "¡Gracias! 🎺"
  const SmsHelloEn: string := "Hi! Supporting Martin HS band. Donate: "
  const SmsHelloEs: string := "¡Hola! Apoyamos la banda de Martin HS. Dona: "

  /** The short answers of the SMS branch. */
  function SmsAnswers(i: Intent, cfg: Config): Variants {
    match i
    case MoneyFor => Variants(SmsFundsEn + cfg.url, SmsFundsEs + cfg.url)
    case Amount => Variants(SmsAmountEn + cfg.url, SmsAmountEs + cfg.url)
    case MexCard => Variants(SmsMexCardEn + cfg.url, SmsMexCardEs + cfg.url)
    case AboutAndree => Variants(SmsAboutEn + cfg.url, SmsAboutEs + cfg.url)
    case Tax => Variants(SmsTaxEn, SmsTaxEs)
    case Deadline => DeadlineSms(cfg)
    case HowDonate => Variants(SmsHowToEn + cfg.url, SmsHowToEs + cfg.url)
    case Share => Variants(SmsShareEn + cfg.url, SmsShareEs + cfg.url)
    case Thanks => Variants(SmsThanksEn, SmsThanksEs)
    case Greeting => Variants(SmsHelloEn + cfg.url, SmsHelloEs + cfg.url)
  }

  /**
   * The SMS answers are the "<=160 char" variants: each one fits in one SMS
   * whenever the donation link leaves room for the longest fixed text (the
   * 74 characters of `SmsFundsEs`) and the goal, date and link leave room for
   * the 27 fixed characters of the deadline sentence.
   */
  lemma SmsAnswersFit(i: Intent, cfg: Config)
    requires |cfg.url| <= SmsLimit - |SmsFundsEs|
    requires 27 + |cfg.goal| + |cfg.deadline| + |cfg.url| <= SmsLimit
    ensures |SmsAnswers(i, cfg).en| <= SmsLimit && |SmsAnswers(i, cfg).es| <= SmsLimit
  {
    var v := SmsAnswers(i, cfg);
    match i
    case MoneyFor => assert |v.en| == 67 + |cfg.url| && |v.es| == 74 + |cfg.url|;
    case Amount => assert |v.en| == 45 + |cfg.url| && |v.es| == 31 + |cfg.url|;
    case MexCard => assert |v.en| == 39 + |cfg.url| && |v.es| == 41 + |cfg.url|;
    case AboutAndree => assert |v.en| == 55 + |cfg.url| && |v.es| == 50 + |cfg.url|;
    case Tax => assert |v.en| == 72 && |v.es| == 78;
    case Deadline => DeadlineSmsLength(cfg);
    case HowDonate => assert |v.en| == 26 + |cfg.url| && |v.es| == 23 + |cfg.url|;
    case Share => assert |v.en| == 28 + |cfg.url| && |v.es| == 34 + |cfg.url|;
    case Thanks => assert |v.en| == 12 && |v.es| == 11;
    case Greeting => assert |v.en| == 39 + |cfg.url| && |v.es| == 45 + |cfg.url|;
  }

  /** Lengths of the SMS deadline answers: the fixed text plus the goal, date and link it quotes. */
  lemma DeadlineSmsLength(cfg: Config)
    ensures var v := DeadlineSms(cfg);
      if cfg.deadline != [] && cfg.goal != [] then
        |v.en| == 27 + |cfg.goal| + |cfg.deadline| + |cfg.url| && |v.es| == 25 + |cfg.goal| + |cfg.deadline| + |cfg.url|
      else |v.en| == 28 + |cfg.url| && |v.es| == 20 + |cfg.url|
  {
  }

  /** The link bound of `SmsAnswersFit` is tight: one more character and the Spanish purpose answer is too long. */
  lemma SmsAnswersLinkBound(cfg: Config)
    requires |cfg.url| > SmsLimit - |SmsFundsEs|
    ensures |SmsAnswers(MoneyFor, cfg).es| > SmsLimit
  {
  }

  /** The richer answers of the WhatsApp branch. */
  function WhatsAppAnswers(i: Intent, cfg: Config): Variants {
    match i
    case MoneyFor => Variants(
      "Funds support the Martin HS band (equipment, uniforms, travel, and program needs). "
        + "Andree is a sophomore who plays French horn. If you’d like to help: " + cfg.url,
      "Los fondos apoyan a la banda de Martin HS (equipo, uniformes, viajes y necesidades del programa). "
        + "Andree cursa segundo año y toca corno francés. Si deseas ayudar: " + cfg.url)
    case Amount => Variants(
      "Anything helps—small gifts like $3–$5 are perfect. Give what feels right. Donar: " + cfg.url,
      "Todo ayuda—donativos de $3–$5 son perfectos. Aporta lo que te sea posible. Donar: " + cfg.url)
    case MexCard => Variants(
      "The page accepts major cards. If a Mexican card has trouble, try another card or the alternative option on the page. Test here: " + cfg.url,
      "La página acepta tarjetas principales. Si una tarjeta mexicana falla, prueba otra o el método alterno de la página. Prueba aquí: " + cfg.url)
    case AboutAndree => Variants(
      "Andree Valentino is a sophomore at Martin High School and plays French horn in the band. "
        + "Your support goes straight to the band program: " + cfg.url,
      "Andree Valentino cursa segundo año en Martin High School y toca corno francés en la banda. "
        + "Tu apoyo va directo al programa de banda: " + cfg.url)
    case Tax => Variants(
      "You’ll get an email receipt after donating. Tax treatment can vary; please consult your tax advisor.",
      "Después de donar, recibirás un recibo por correo electrónico. El tratamiento fiscal puede variar; consulta a tu asesor.")
    case Deadline => DeadlineWhatsApp(cfg)
    case HowDonate => Variants(
      "Thanks for helping! Tap this link, choose any amount, and submit: " + cfg.url,
      "¡Gracias por apoyar! Abre este enlace, elige el monto que gustes y envía tu donación: " + cfg.url)
    case Share => Variants(
      "Yes, please share! You can copy this:\n\n" + "Hi! I’m supporting Andree’s Martin HS band fundraiser. Chip in here: " + cfg.url,
      "¡Sí, por favor comparte! Puedes copiar esto:\n\n" + "¡Hola! Apoyo la recaudación para la banda de Martin HS de Andree. Enlace: " + cfg.url)
    case Thanks => Variants("You’re awesome—thank you! 🎺", "¡Muchas gracias! 🎺")
    case Greeting => Variants(
      "Hi! I’m helping Andree’s Martin HS band fundraiser. If you’d like to support, here’s the link: " + cfg.url,
      "¡Hola! Estoy ayudando con la recaudación para la banda de Martin HS de Andree. Si quieres apoyar, aquí está el enlace: " + cfg.url)
  }

  function Answers(i: Intent, sms: bool, cfg: Config): Variants {
    if sms then SmsAnswers(i, cfg) else WhatsAppAnswers(i, cfg)
  }

  // ---------------------------------------------------------------- router

  /**
   * The answer for the intent found, in the language found: none without an
   * intent, otherwise the Spanish answer when the text is Spanish and the
   * English one when it is not.
   */
  function Answer(intent: Option<Intent>, es: bool, sms: bool, cfg: Config): (r: Option<string>)
    ensures r.None? <==> intent.None?
    ensures r.Some? && es ==> r.value == Answers(intent.value, sms, cfg).es
    ensures r.Some? && !es ==> r.value == Answers(intent.value, sms, cfg).en
  {
    match intent
    case None => None
    case Some(i) =>
      var v := Answers(i, sms, cfg);
      Some(if es then v.es else v.en)
  }

  /**
   * `faq_router`: strip and lower-case the text, find the first intent whose
   * patterns match (in the same order for SMS and WhatsApp), and answer in
   * Spanish when the text looks Spanish. It answers exactly when some
   * intent's patterns match; it then answers for the first such intent in
   * the fixed order, in the language of the text.
   */
  function FaqRouter(userText: string, sms: bool, cfg: Config): (r: Option<string>)
    ensures var t := Lower(Strip(userText));
      && (r.None? <==> forall i | i in IntentOrder :: !Matches(t, i))
      && (r.Some? ==> exists k | 0 <= k < |IntentOrder| ::
        && Matches(t, IntentOrder[k])
        && (forall j | 0 <= j < k :: !Matches(t, IntentOrder[j]))
        && (IsSpanish(t) ==> r.value == Answers(IntentOrder[k], sms, cfg).es)
        && (!IsSpanish(t) ==> r.value == Answers(IntentOrder[k], sms, cfg).en))
  {
    var t := Lower(Strip(userText));
    FirstIntentSpec(MatcherOf(t), IntentOrder);
    Answer(FirstIntent(MatcherOf(t), IntentOrder), IsSpanish(t), sms, cfg)
  }

  /** The router strips the text itself, so routing an already stripped text changes nothing. */
  lemma FaqRouterOfStripped(userText: string, sms: bool, cfg: Config)
    ensures FaqRouter(Strip(userText), sms, cfg) == FaqRouter(userText, sms, cfg)
  {
    StripIdempotent(userText);
  }

  // ---------------------------------------------------------------- prompt and webhooks

  const VeryShortStyle: string := "very short (1–2 sentences)"
  const ShortStyle: string := "short (1–3 sentences)"
  const PromptHead: string := "You are a friendly, concise, bilingual (English/Spanish) fundraising assistant.\n- Keep replies "
  const PromptTail: string := "\nAssistant:"

  const DonateLine: string := ".\n- If the user asks how to donate or is ready to help, include the donation link: "
  const InfoLine: string := "\n- If they greet or ask general info, explain it's for Andree Valentino (sophomore, French horn, Martin High School band) and funds support the band program."
  const LanguageLine: string := "\n- Match the user's language: Spanish in Spanish, English in English.\nUser: "

  /** The instructions between the style and the user's text; they quote the link. */
  function PromptMiddle(cfg: Config): string {
    DonateLine + cfg.url + InfoLine + LanguageLine
  }

  /**
   * The layout of a text assembled from five parts `head + slot + middle +
   * user + tail`, where the slot is `veryShort` when `sms` holds and `short`
   * otherwise: it starts with the head, the slot follows the head, the user
   * part sits after the middle, and since the two choices differ in their
   * first character, `veryShort` sits after the head exactly when `sms` holds.
   */
  lemma FiveParts(head: string, short: string, veryShort: string, middle: string, user: string, tail: string, sms: bool)
    requires short != [] && veryShort != [] && short[0] != veryShort[0]
    ensures var p := head + (if sms then veryShort else short) + middle + user + tail;
      && head <= p
      && (OccursAt(p, veryShort, |head|) <==> sms)
      && (!sms ==> OccursAt(p, short, |head|))
      && OccursAt(p, user, |head| + |if sms then veryShort else short| + |middle|)
  {
    var slot := if sms then veryShort else short;
    var p := head + slot + middle + user + tail;
    assert p == head + (slot + (middle + (user + tail)));
    assert p[|head| + |slot| + |middle|..] == user + tail;
    assert p[|head|] == slot[0];
  }

  /** The two styles already differ in their first letter. */
  lemma StylesDiffer()
    ensures ShortStyle != [] && VeryShortStyle != [] && ShortStyle[0] != VeryShortStyle[0]
  {
    assert ShortStyle[0] == 's' && VeryShortStyle[0] == 'v';
  }

  /** `build_prompt`: the instructions with the style for the channel, the link and the user's text. */
  function BuildPrompt(userText: string, sms: bool, cfg: Config): (prompt: string)
    ensures PromptHead <= prompt
    ensures OccursAt(prompt, VeryShortStyle, |PromptHead|) <==> sms
    ensures !sms ==> OccursAt(prompt, ShortStyle, |PromptHead|)
    ensures exists k | 0 <= k <= |prompt| :: OccursAt(prompt, userText, k)
  {
    var style := if sms then VeryShortStyle else ShortStyle;
    var middle := PromptMiddle(cfg);
    StylesDiffer();
    FiveParts(PromptHead, ShortStyle, VeryShortStyle, middle, userText, PromptTail, sms);
    PromptHead + style + middle + userText + PromptTail
  }

  const SmsLimit: nat := 160

  /** The SMS cap on a generated answer: more than 160 characters become the first 157 and "...". */
  function SmsCap(answer: string): (r: string)
    ensures |r| <= SmsLimit
    ensures |answer| <= SmsLimit ==> r == answer
    ensures |answer| > SmsLimit ==> |r| == SmsLimit && r[..157] == answer[..157] && r[157..] == "..."
  {
    if |answer| > SmsLimit then answer[..157] + "..." else answer
  }

  /** Capping twice is capping once. */
  lemma SmsCapIdempotent(answer: string)
    ensures SmsCap(SmsCap(answer)) == SmsCap(answer)
  {
  }

  /** How a webhook answered: the start prompt, a canned answer, the model's answer, or the apology. */
  datatype Route = StartPrompt | Canned | Generated | Apology

  datatype Reply = Reply(route: Route, text: string)

  const SmsStart: string := "Hi! Please send a message to get started. Reply STOP to unsubscribe."
  const WhatsAppStart: string := "Hi! Please send a message to get started."
  const SmsApology: string := "Temporary issue. Please try again soon. Reply STOP to unsubscribe."
  const WhatsAppApology: string := "I’m having a brief technical hiccup. Please try again in a minute. Gracias por tu paciencia."

  /**
   * Both webhooks, given what the router would answer for the stripped body
   * and what the model answered (`None` when the call failed): a blank body
   * gets the start prompt; otherwise a non-empty canned answer is sent;
   * otherwise the model's answer (capped for SMS), or the apology.
   */
  function Respond(body: string, sms: bool, canned: Option<string>, answer: Option<string>): (r: Reply)
    ensures r.route == StartPrompt <==> Strip(body) == []
    ensures r.route == StartPrompt ==> r.text == if sms then SmsStart else WhatsAppStart
    ensures r.route == Canned <==> Strip(body) != [] && canned.Some? && canned.value != []
    ensures r.route == Canned ==> r.text == canned.value
    ensures r.route == Generated ==> answer.Some? && r.text == (if sms then SmsCap(answer.value) else answer.value)
    ensures r.route == Apology <==> Strip(body) != [] && !(canned.Some? && canned.value != []) && answer.None?
    ensures sms && r.route != Canned ==> |r.text| <= SmsLimit
  {
    if Strip(body) == [] then Reply(StartPrompt, if sms then SmsStart else WhatsAppStart)
    else if canned.Some? && canned.value != [] then Reply(Canned, canned.value)
    else if answer.Some? then Reply(Generated, if sms then SmsCap(answer.value) else answer.value)
    else Reply(Apology, if sms then SmsApology else WhatsAppApology)
  }

  /** A blank body is never routed: neither the router's nor the model's answer changes the reply. */
  lemma RespondBlank(body: string, sms: bool, canned1: Option<string>, answer1: Option<string>,
                     canned2: Option<string>, answer2: Option<string>)
    requires forall i | 0 <= i < |body| :: IsSpace(body[i])
    ensures Respond(body, sms, canned1, answer1) == Respond(body, sms, canned2, answer2)
  {
    StripEmpty(body);
  }

  /**
   * `sms_reply` and `whatsapp_reply`: the router consulted on the stripped
   * body. A blank body gets the start prompt; a non-empty router answer is
   * sent as it is; otherwise the model's answer (capped for SMS) or the apology.
   */
  function Webhook(body: string, sms: bool, cfg: Config, answer: Option<string>): (r: Reply)
    ensures Strip(body) == [] ==> r == Reply(StartPrompt, if sms then SmsStart else WhatsAppStart)
    ensures r.route == Canned <==> Strip(body) != [] && FaqRouter(body, sms, cfg).Some? && FaqRouter(body, sms, cfg).value != []
    ensures r.route == Canned ==> r.text == FaqRouter(body, sms, cfg).value
    ensures r.route == Generated ==> answer.Some? && r.text == (if sms then SmsCap(answer.value) else answer.value)
    ensures r.route == Apology ==> answer.None? && r.text == (if sms then SmsApology else WhatsAppApology)
    ensures sms && r.route != Canned ==> |r.text| <= SmsLimit
  {
    FaqRouterOfStripped(body, sms, cfg);
    Respond(body, sms, FaqRouter(Strip(body), sms, cfg), answer)
  }
}
