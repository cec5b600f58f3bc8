/** The page's configuration: the per-level language styles and per-label
    contact styles with their "default" fallbacks, and the shipped profile
    data those lookups and the derivations are applied to. */
module Constants {
  import opened Text
  import opened Calendar
  import opened Periods
  import opened Sorting
  import opened Experiences
  import opened Initials

  // ---------- languageMeta ----------

  /** The progress-bar width, CSS classes and caption for one level. */
  datatype LanguageStyle = LanguageStyle(percent: int, bar: String, track: String, iconWrap: String, badge: String, caption: String)

  /** The levels with their own entry, strongest first. */
  const LevelNames: seq<String> := ["Nativo", "Avançado", "Intermediário", "Básico"]

  const DefaultLanguageStyle := LanguageStyle(50, "from-indigo-300 via-indigo-400 to-indigo-500", "bg-indigo-100",
    "bg-indigo-50 text-indigo-600", "bg-indigo-50 text-indigo-600", "")

  const LanguageMeta: map<String, LanguageStyle> := map[
    "Nativo" := LanguageStyle(100, "from-indigo-500 via-indigo-600 to-indigo-700", "bg-indigo-100",
      "bg-indigo-50 text-indigo-600", "bg-indigo-100 text-indigo-700", "Fluência nativa"),
    "Avançado" := LanguageStyle(85, "from-indigo-400 via-indigo-500 to-indigo-600", "bg-indigo-100/80",
      "bg-indigo-50 text-indigo-600", "bg-indigo-50 text-indigo-600", "Comunica com alta proficiência"),
    "Intermediário" := LanguageStyle(65, "from-indigo-300 via-indigo-400 to-indigo-500", "bg-indigo-100/70",
      "bg-indigo-50 text-indigo-600", "bg-indigo-50 text-indigo-600", "Boa compreensão com ajustes pontuais"),
    "Básico" := LanguageStyle(40, "from-indigo-200 via-indigo-300 to-indigo-400", "bg-indigo-100/60",
      "bg-indigo-50 text-indigo-600", "bg-indigo-50 text-indigo-600", "Conhecimentos fundamentais"),
    "default" := DefaultLanguageStyle
  ]

  /** languageMeta[level] ?? languageMeta.default: the four named levels
      have their own style with a caption; every other level falls back to
      the default, percent 50 with no caption. Every width is a
      percentage. */
  function LanguageStyleFor(level: String): (s: LanguageStyle)
    ensures 0 <= s.percent <= 100
    ensures level !in LevelNames ==> s == DefaultLanguageStyle
    ensures s.caption == "" <==> level !in LevelNames
  {
    if level in LanguageMeta then LanguageMeta[level] else LanguageMeta["default"]
  }

  /** The bar shrinks strictly from Nativo (100) through Avançado (85) and
      Intermediário (65) to Básico (40). */
  lemma LanguagePercentsDecrease()
    ensures LanguageStyleFor("Nativo").percent == 100 && LanguageStyleFor("Avançado").percent == 85
    ensures LanguageStyleFor("Intermediário").percent == 65 && LanguageStyleFor("Básico").percent == 40
    ensures forall i, j :: 0 <= i < j < |LevelNames| ==> LanguageStyleFor(LevelNames[i]).percent > LanguageStyleFor(LevelNames[j]).percent
  {
  }

  // ---------- contactMeta ----------

  datatype Icon = PhoneIcon | MailIcon | GithubIcon | LinkedinIcon

  datatype ContactStyle = ContactStyle(icon: Icon, card: String, iconWrap: String)

  /** The labels with their own entry. */
  const ContactLabels: seq<String> := ["Telefone", "E-mail", "GitHub", "LinkedIn"]

  const ContactCard: String := "border-indigo-100 hover:border-indigo-200 hover:ring-2 hover:ring-indigo-100/70"
  const ContactIconWrap: String := "bg-indigo-50 text-indigo-600 group-hover:bg-indigo-100 group-hover:text-indigo-700"

  const DefaultContactStyle := ContactStyle(MailIcon, ContactCard, ContactIconWrap)

  const ContactMeta: map<String, ContactStyle> := map[
    "Telefone" := ContactStyle(PhoneIcon, ContactCard, ContactIconWrap),
    "E-mail" := ContactStyle(MailIcon, ContactCard, ContactIconWrap),
    "GitHub" := ContactStyle(GithubIcon, ContactCard, ContactIconWrap),
    "LinkedIn" := ContactStyle(LinkedinIcon, ContactCard, ContactIconWrap),
    "default" := DefaultContactStyle
  ]

  /** contactMeta[label] ?? contactMeta.default: each named label has its
      own icon; every other label gets the default, the mail icon. */
  function ContactStyleFor(name: String): (s: ContactStyle)
    ensures name !in ContactLabels ==> s == DefaultContactStyle
    ensures s.icon == PhoneIcon <==> name == "Telefone"
    ensures s.icon == GithubIcon <==> name == "GitHub"
    ensures s.icon == LinkedinIcon <==> name == "LinkedIn"
    ensures s.card == ContactCard && s.iconWrap == ContactIconWrap
  {
    if name in ContactMeta then ContactMeta[name] else ContactMeta["default"]
  }

  // ---------- The shipped profile ----------

  datatype Contact = Contact(title: String, value: String, href: String)

  datatype Language = Language(name: String, level: String)

  const ProfileName: String := "Daniel Machado Pintos"

  const ShippedContacts: seq<Contact> := [
    Contact("Telefone", "+55 41 99887-8877", "tel:+5541998878877"),
    Contact("E-mail", "danielmachadopintos@gmail.com", "mailto:danielmachadopintos@gmail.com"),
    Contact("GitHub", "github.com/danielmachado65", "https://github.com/danielmachado65"),
    Contact("LinkedIn", "linkedin.com/in/danielmachado65", "https://www.linkedin.com/in/danielmachado65")
  ]

  const ShippedLanguages: seq<Language> := [
    Language("Português", "Nativo"),
    Language("Inglês", "Avançado"),
    Language("Espanhol", "Básico")
  ]

  const ShippedExperiences: seq<Experience> := [
    Experience("Senior Developer (Developer + DevOps)", "Olho no Carro → Gringo → Sem Parar", "São Paulo (Brasil)", "2023–2025"),
    Experience("Senior Full-Stack Developer + DevOps", "Chiligum → VidMob", "São Paulo (BR) / Nova York (EUA)", "2021–2023"),
    Experience("Mid-Level Full-Stack Developer", "Pontomais", "Curitiba (Brasil)", "2020–2021"),
    Experience("Mid-Level Full-Stack Developer (Contract)", "Checkplant Sistemas", "Curitiba (Brasil)", "2020-2020"),
    Experience("Full-Stack Developer (Junior → Mid-Level)", "Social Wave", "Curitiba (Brasil)", "2018–2020"),
    Experience("Full-Stack Developer (Junior)", "Grupo ABL", "Curitiba (Brasil)", "2017-2018")
  ]

  /** Every shipped level has its own style, so no language shows the
      default bar. */
  lemma ShippedLevelsKnown()
    ensures forall k :: 0 <= k < |ShippedLanguages| ==>
      ShippedLanguages[k].level in LevelNames && LanguageStyleFor(ShippedLanguages[k].level) != DefaultLanguageStyle
  {
  }

  /** Every shipped contact label has its own entry, so the default is
      never used for shipped data. */
  lemma ShippedContactsKnown()
    ensures forall k :: 0 <= k < |ShippedContacts| ==>
      && ShippedContacts[k].title in ContactLabels
      && ShippedContacts[k].title in ContactMeta
      && ShippedContacts[k].title != "default"
  {
  }

  /** A label "from–to" or "from-to" with two four-digit years. */
  datatype YearLabel = YearLabel(from: int, sep: char, to: int)

  predicate ValidLabel(l: YearLabel) {
    1900 <= l.from <= 2099 && 1900 <= l.to <= 2099 && IsDash(l.sep)
  }

  function LabelText(l: YearLabel): String
    requires ValidLabel(l)
  {
    YearText(l.from) + [l.sep] + YearText(l.to)
  }

  /** The shipped periods, entry by entry: en dash and hyphen ranges. */
  const ShippedLabels: seq<YearLabel> := [
    YearLabel(2023, '–', 2025), YearLabel(2021, '–', 2023), YearLabel(2020, '–', 2021),
    YearLabel(2020, '-', 2020), YearLabel(2018, '–', 2020), YearLabel(2017, '-', 2018)
  ]

  /** Entry k of e is labelled labels[k]. */
  ghost predicate LabelledBy(e: seq<Experience>, labels: seq<YearLabel>) {
    && |e| == |labels|
    && (forall k :: 0 <= k < |labels| ==> ValidLabel(labels[k]))
    && (forall k :: 0 <= k < |labels| ==> e[k].period == LabelText(labels[k]))
  }

  /** The shipped periods are exactly the texts of the shipped labels. */
  lemma ShippedPeriodTexts()
    ensures |ShippedExperiences| == |ShippedLabels|
    ensures forall k :: 0 <= k < |ShippedLabels| ==> ValidLabel(ShippedLabels[k])
    ensures forall k :: 0 <= k < |ShippedLabels| ==> ShippedExperiences[k].period == LabelText(ShippedLabels[k])
  {
    RecentPeriodTexts();
    EarlyPeriodTexts();
  }

  /** The three most recent shipped periods, spelled out. */
  lemma RecentPeriodTexts()
    ensures ShippedExperiences[0].period == LabelText(ShippedLabels[0])
    ensures ShippedExperiences[1].period == LabelText(ShippedLabels[1])
    ensures ShippedExperiences[2].period == LabelText(ShippedLabels[2])
  {
    assert ShippedExperiences[0].period == LabelText(ShippedLabels[0]);
    assert ShippedExperiences[1].period == LabelText(ShippedLabels[1]);
  }

  /** The three earliest shipped periods, spelled out. */
  lemma EarlyPeriodTexts()
    ensures ShippedExperiences[3].period == LabelText(ShippedLabels[3])
    ensures ShippedExperiences[4].period == LabelText(ShippedLabels[4])
    ensures ShippedExperiences[5].period == LabelText(ShippedLabels[5])
  {
    assert ShippedExperiences[3].period == LabelText(ShippedLabels[3]);
    assert ShippedExperiences[4].period == LabelText(ShippedLabels[4]);
  }

  lemma ShippedLabelled()
    ensures LabelledBy(ShippedExperiences, ShippedLabels)
  {
    ShippedPeriodTexts();
  }

  /** Each entry's range is the Jan 1 starts of its label's two years. */
  lemma LabelledRanges(e: seq<Experience>, labels: seq<YearLabel>)
    requires LabelledBy(e, labels)
    ensures forall k :: 0 <= k < |e| ==> Range(e[k]) == PeriodRange(YearStart(labels[k].from), YearStart(labels[k].to))
  {
    forall k | 0 <= k < |e|
      ensures Range(e[k]) == PeriodRange(YearStart(labels[k].from), YearStart(labels[k].to))
    {
      YearRangeLabel(labels[k].from, labels[k].sep, labels[k].to);
    }
  }

  /** Labels running forward from after 1970 give 0 < start <= end. */
  lemma LabelledPeriodsParse(e: seq<Experience>, labels: seq<YearLabel>)
    requires LabelledBy(e, labels)
    requires forall k :: 0 <= k < |labels| ==> 1970 < labels[k].from <= labels[k].to
    ensures forall k :: 0 <= k < |e| ==> 0 < Range(e[k]).start <= Range(e[k]).end
  {
    LabelledRanges(e, labels);
    forall k | 0 <= k < |e| ensures 0 < Range(e[k]).start <= Range(e[k]).end {
      YearStartSign(labels[k].from);
      YearStartMonotone(labels[k].from, labels[k].to);
    }
  }

  /** Labels whose end years do not increase are already newest first. */
  lemma LabelledSorted(e: seq<Experience>, labels: seq<YearLabel>)
    requires LabelledBy(e, labels)
    requires forall i, j :: 0 <= i < j < |labels| ==> labels[i].to >= labels[j].to
    ensures SortDesc(e, End) == e
  {
    LabelledRanges(e, labels);
    forall i, j | 0 <= i < j < |e| ensures End(e[i]) >= End(e[j]) {
      YearStartMonotone(labels[j].to, labels[i].to);
    }
    SortDescOfSorted(e, End);
  }

  /** With every range starting on Jan 1 of a year after 1970, the earliest
      positive start is that of the least such year, years[m]. */
  lemma EarliestLabelledStart(r: seq<PeriodRange>, labels: seq<YearLabel>, m: int, now: int)
    requires |r| == |labels|
    requires forall k :: 0 <= k < |r| ==> r[k].start == YearStart(labels[k].from) && labels[k].from > 1970
    requires 0 <= m < |labels| && forall k :: 0 <= k < |labels| ==> labels[m].from <= labels[k].from
    ensures SummaryOfRanges(r, now).Summary?
    ensures SummaryOfRanges(r, now).earliestStart == YearStart(labels[m].from)
  {
    var y := YearStart(labels[m].from);
    YearStartSign(labels[m].from);
    assert r[m].start == y && y > 0;
    var s := SummaryOfRanges(r, now);
    assert s.Summary? && s.earliestStart <= y;
    var k :| 0 <= k < |r| && r[k].start == s.earliestStart;
    YearStartMonotone(labels[m].from, labels[k].from);
  }

  /** Hence the summary is measured from years[m]. */
  lemma SummaryFromYears(r: seq<PeriodRange>, labels: seq<YearLabel>, m: int, now: int)
    requires |r| == |labels|
    requires forall k :: 0 <= k < |r| ==> r[k].start == YearStart(labels[k].from) && labels[k].from > 1970
    requires 0 <= m < |labels| && forall k :: 0 <= k < |labels| ==> labels[m].from <= labels[k].from
    ensures var y := YearStart(labels[m].from);
      SummaryOfRanges(r, now) == Summary(y, now - y, TierOf(now - y))
  {
    EarliestLabelledStart(r, labels, m, now);
  }

  /** The same for entries labelled by year labels. */
  lemma LabelledSummary(e: seq<Experience>, labels: seq<YearLabel>, m: int, now: int)
    requires LabelledBy(e, labels)
    requires forall k :: 0 <= k < |labels| ==> labels[k].from > 1970
    requires 0 <= m < |labels| && forall k :: 0 <= k < |labels| ==> labels[m].from <= labels[k].from
    ensures var y := YearStart(labels[m].from);
      SummaryOf(e, now) == Summary(y, now - y, TierOf(now - y))
  {
    var r := Ranges(e);
    forall k | 0 <= k < |r| ensures r[k].start == YearStart(labels[k].from) {
      assert r[k] == Range(e[k]);
      YearRangeLabel(labels[k].from, labels[k].sep, labels[k].to);
    }
    SummaryFromYears(r, labels, m, now);
  }

  /** Every shipped period parses to a range with 0 < start <= end. */
  lemma ShippedPeriodsParse()
    ensures forall k :: 0 <= k < |ShippedExperiences| ==>
      0 < Range(ShippedExperiences[k]).start <= Range(ShippedExperiences[k]).end
  {
    ShippedLabelled();
    LabelledPeriodsParse(ShippedExperiences, ShippedLabels);
  }

  /** The entries are listed newest first already (ends 2025, 2023, 2021,
      2020, 2020, 2018), so the timeline shows them in listed order. */
  lemma ShippedAlreadySorted()
    ensures SortDesc(ShippedExperiences, End) == ShippedExperiences
  {
    ShippedLabelled();
    LabelledSorted(ShippedExperiences, ShippedLabels);
  }

  /** The shipped labels start from 2017 on, and the last one in 2017. */
  lemma ShippedLabelYears()
    ensures forall k :: 0 <= k < |ShippedLabels| ==> 2017 <= ShippedLabels[k].from
    ensures ShippedLabels[5].from == 2017
  {
  }

  /** The earliest parsed start is Jan 1 2017, from "2017-2018", so the
      summary of entries labelled as the shipped ones (ShippedExperiences
      among them, by ShippedLabelled) is measured from there whatever the
      current time. */
  lemma ShippedSummary(e: seq<Experience>, now: int)
    requires LabelledBy(e, ShippedLabels)
    ensures SummaryOf(e, now) == Summary(YearStart(2017), now - YearStart(2017), TierOf(now - YearStart(2017)))
    ensures SummaryOf(e, now).tier == Especialista <==> now >= YearStart(2017) + 10 * MsPerYear
  {
    ShippedLabelYears();
    LabelledSummary(e, ShippedLabels, 5, now);
  }

  /** The shipped name gives the initials "DM". */
  lemma ShippedInitials()
    ensures ProfileInitials(ProfileName) == "DM"
  {
    ProfileNameInitials(ProfileName);
  }
}
