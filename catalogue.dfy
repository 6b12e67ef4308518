/** The records the API serves and the pure request helpers of
    `src/v1/index.ts`: the language and query parsers and the formatter. */
module Catalogue {
  import opened Wrappers
  import opened JsString

  /** The closed set of languages a record is translated into. */
  datatype Lang = En | Id

  /** The code of a language as it appears in the `lang` query parameter. */
  function LangCode(lang: Lang): string {
    match lang
    case En => "en"
    case Id => "id"
  }

  /** A request value as a handler receives it: missing, a string, or a
      value of another type (a number from a direct caller, a nested object
      from the query-string parser). */
  datatype Param = Absent | Str(s: string) | Other

  datatype Translation = Translation(meaning: string, tafsir: string, insight: Option<string>)

  datatype Translations = Translations(en: Translation, id: Translation) {
    function Of(lang: Lang): Translation {
      match lang
      case En => en
      case Id => id
    }
  }

  /** One catalogue record; `arabic` is the script label, `latin` its
      transliteration. */
  datatype Name = Name(id: int, arabic: string, latin: string, translations: Translations)

  /** The `name` part of a formatted record: `insight` is always present,
      `Null` where the record has none. */
  datatype FormattedTranslation = FormattedTranslation(meaning: string, tafsir: string, insight: Nullable<string>)

  datatype FormattedName = FormattedName(id: int, arabic: string, latin: string, name: FormattedTranslation)

  /** `parseLang`: never fails, and answers `Id` exactly for a string that
      trims and lowercases to "id". */
  function ParseLang(query: Param): (r: Lang)
    ensures r == Id <==> query.Str? && Lower(Trim(query.s)) == "id"
  {
    var lang := if query.Str? then Lower(Trim(query.s)) else "en";
    if lang == "id" then Id else En
  }

  /** A language code, in any letter case and with any white space around
      it, parses back to its language. */
  lemma ParseLangAccepts(lang: Lang, before: string, code: string, after: string)
    requires SpacesBetween(before, 0, |before|) && SpacesBetween(after, 0, |after|)
    requires Lower(code) == LangCode(lang)
    ensures ParseLang(Str(before + code + after)) == lang
  {
    var s := before + code + after;
    assert !IsSpace(code[0]) && !IsSpace(code[1]) by {
      assert LowerChar(code[0]) == Lower(code)[0];
      assert LowerChar(code[1]) == Lower(code)[1];
    }
    assert s[|before|..|before| + |code|] == code;
    assert SpacesBetween(s, 0, |before|) by {
      forall k | 0 <= k < |before| ensures IsSpace(s[k]) { assert s[k] == before[k]; }
    }
    assert SpacesBetween(s, |before| + |code|, |s|) by {
      forall k | |before| + |code| <= k < |s| ensures IsSpace(s[k]) {
        assert s[k] == after[k - |before| - |code|];
      }
    }
    assert StripsTo(s, code, |before|);
    TrimUnique(s, code, |before|);
  }

  /** The characters a search query may hold: lower-case ASCII letters,
      digits, white space and `-`. */
  predicate IsQueryChar(c: char) {
    'a' <= c <= 'z' || '0' <= c <= '9' || IsSpace(c) || c == '-'
  }

  predicate IsCleanQuery(s: string) {
    forall k :: 0 <= k < |s| ==> IsQueryChar(s[k])
  }

  /** `parseQuery`: the trimmed, lowercased string when every character of
      it is allowed, and the empty string otherwise (a rejection of the
      whole input, never a removal of the bad characters). */
  function ParseQuery(query: Param): (r: string)
    ensures IsCleanQuery(r)
    ensures r == "" || (query.Str? && r == Lower(Trim(query.s)))
    ensures query.Str? && IsCleanQuery(Lower(Trim(query.s))) ==> r == Lower(Trim(query.s))
  {
    var q := if query.Str? then Lower(Trim(query.s)) else "";
    if IsCleanQuery(q) then q else ""
  }

  /** Sanitising an already sanitised query changes nothing. */
  lemma ParseQueryIdempotent(query: Param)
    ensures ParseQuery(Str(ParseQuery(query))) == ParseQuery(query)
  {
    var r := ParseQuery(query);
    if r != "" {
      var t := Trim(query.s);
      assert r == Lower(t);
      assert IsTrimmed(t);
      LowerKeepsTrimmed(t);
      TrimOfTrimmed(r);
      LowerIdempotent(t);
      assert Lower(Trim(r)) == r;
    }
  }

  /** `formatName`: the record's identity fields and the chosen language's
      translation, with a missing `insight` turned into `Null`. */
  function FormatName(name: Name, lang: Lang): (r: FormattedName)
    ensures r.id == name.id && r.arabic == name.arabic && r.latin == name.latin
    ensures r.name.meaning == name.translations.Of(lang).meaning
    ensures r.name.tafsir == name.translations.Of(lang).tafsir
    ensures r.name.insight.Null? <==> name.translations.Of(lang).insight.None?
    ensures r.name.insight.NonNull? ==> r.name.insight.value == name.translations.Of(lang).insight.value
  {
    var t := name.translations.Of(lang);
    var insight := match t.insight case Some(v) => NonNull(v) case None => Null;
    FormattedName(name.id, name.arabic, name.latin, FormattedTranslation(t.meaning, t.tafsir, insight))
  }
}
