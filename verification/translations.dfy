/** The two translation tables of the storefront. Only German and Persian
    tables exist; French and Italian have none. */
module Translations {
  import opened Prelude
  import opened Types

  const GermanTable: map<string, string> := map[
        "atelier" := "ATELIER",
        "archive" := "ARCHIV",
        "bag" := "TASCHE",
        "id" := "IDENTITÄT",
        "sell" := "VERKAUFEN",
        "resaleProtocol" := "WIEDERVERKAUF-PROTOKOLL",
        "enterArchive" := "ARCHIV BETRETEN",
        "precision" := "PRÄZISION",
        "perfection" := "PERFEKTION",
        "featuredHeritage" := "AUSGEWÄHLTES ERBE",
        "roadmap" := "STRATEGISCHE MISSION",
        "mission2024" := "MISSION 2024",
        "mission2025" := "MISSION 2025",
        "neuralAudit" := "NEURALE PRÜFUNG",
        "autoRepair" := "SELBSTREPARATUR",
        "systemStable" := "STABIL",
        "searchPlaceholder" := "ARCHIV DURCHSUCHEN...",
        "resourceQuota" := "RESSOURCEN-KONTINGENT",
        "commandCenter" := "KOMMANDOZENTRALE",
        "protocol" := "PROTOKOLL",
        "creativeLab" := "KREATIV-LABOR",
        "dashboard" := "DASHBOARD",
        "security" := "SICHERHEIT",
        "all" := "ALLE",
        "men" := "HERREN",
        "women" := "DAMEN",
        "kids" := "KINDER",
        "accessories" := "ACCESSOIRES"
      ]

  const PersianTable: map<string, string> := map[
        "atelier" := "آتلیه",
        "archive" := "آرشیو",
        "bag" := "سبد خرید",
        "id" := "هویت",
        "sell" := "فروش واحد",
        "resaleProtocol" := "پروتکل بازفروش",
        "enterArchive" := "ورود به آرشیو",
        "precision" := "دقت مطلق",
        "perfection" := "کمال بصری",
        "featuredHeritage" := "بایگانی برتر",
        "roadmap" := "ماموریت استراتژیک",
        "mission2024" := "فاز ۲۰۲۴: استقرار",
        "mission2025" := "فاز ۲۰۲۵: خودمختاری",
        "neuralAudit" := "بازرسی عصبی",
        "autoRepair" := "ترمیم خودکار",
        "systemStable" := "پایداری کامل",
        "searchPlaceholder" := "جستجوی در بایگانی...",
        "resourceQuota" := "سهمیه منابع سیستم",
        "commandCenter" := "مرکز فرماندهی هویت",
        "dashboard" := "داشبورد مرکزی",
        "security" := "امنیت لایه‌ای",
        "protocol" := "پروتکل",
        "creativeLab" := "آزمایشگاه خلاق",
        "all" := "همه",
        "men" := "مردانه",
        "women" := "زنانه",
        "kids" := "بچگانه",
        "accessories" := "اکسسوری"
      ]

  /** `translations[code]`: the table for a language, when there is one. */
  function Table(lang: Language): (r: Option<map<string, string>>)
    ensures r.Some? <==> lang == De || lang == Fa
  {
    match lang
    case De => Some(GermanTable)
    case Fa => Some(PersianTable)
    case _ => None
  }

  /** Looking a key up in one table; a missing key reads as the empty
      (falsy) value. */
  function Entry(table: map<string, string>, key: string): (r: string)
    ensures key in table ==> r == table[key]
    ensures key !in table ==> r == ""
  {
    if key in table then table[key] else ""
  }

  /** Both tables translate exactly the same keys. */
  lemma TablesHaveSameKeys()
    ensures GermanTable.Keys == PersianTable.Keys
  {
    assert forall k :: k in GermanTable ==> k in PersianTable;
    assert forall k :: k in PersianTable ==> k in GermanTable;
  }

  /** Every entry in either table is a non-empty text. */
  lemma EntriesAreNonEmpty()
    ensures forall k :: k in GermanTable ==> GermanTable[k] != ""
    ensures forall k :: k in PersianTable ==> PersianTable[k] != ""
  {
    GermanEntriesAreNonEmpty();
    PersianEntriesAreNonEmpty();
  }

  lemma GermanEntriesAreNonEmpty()
    ensures forall k :: k in GermanTable ==> GermanTable[k] != ""
  {
  }

  lemma PersianEntriesAreNonEmpty()
    ensures forall k :: k in PersianTable ==> PersianTable[k] != ""
  {
  }

  /** The lower-cased category names used as keys by the catalog pages are
      all present; 'tiers', used as a tab label on the profile page, is not. */
  lemma CategoryKeysPresentTiersAbsent()
    ensures forall k :: k in ["all", "men", "women", "kids", "accessories"] ==> k in GermanTable && k in PersianTable
    ensures "tiers" !in GermanTable && "tiers" !in PersianTable
  {
    GermanCategoryKeys();
    PersianCategoryKeys();
  }

  lemma GermanCategoryKeys()
    ensures forall k :: k in ["all", "men", "women", "kids", "accessories"] ==> k in GermanTable
    ensures "tiers" !in GermanTable
  {
  }

  lemma PersianCategoryKeys()
    ensures forall k :: k in ["all", "men", "women", "kids", "accessories"] ==> k in PersianTable
    ensures "tiers" !in PersianTable
  {
  }
}
