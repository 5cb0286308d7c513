/**
 * The translation directory as the command-line scripts read it: which
 * directory entries are translation files, the language each file names,
 * and the languages found by listing the directory.
 */
module Listing {
  import opened Text
  import opened Sequences

  predicate EndsWith(s: string, suffix: string)
  {
    |suffix| <= |s| && s[|s| - |suffix|..] == suffix
  }

  /** `f.endsWith('.json') && !f.startsWith('_')`: `_metadata.json` and the like are not languages. */
  predicate IsTranslationFile(f: string)
  {
    EndsWith(f, ".json") && !StartsWith(f, "_")
  }

  /** The translation files of a directory listing, in listing order. */
  function TranslationFiles(listing: seq<string>): (files: seq<string>)
    ensures forall f :: f in files <==> f in listing && IsTranslationFile(f)
    ensures IsSubsequence(files, listing)
  {
    Keep(listing, IsTranslationFile)
  }

  /**
   * `path.basename(f, '.json')` on a directory entry: the language whose
   * file `loadTranslations` opens as `${language}.json` is `f` itself.
   */
  function LanguageOfFile(f: string): (language: string)
    requires EndsWith(f, ".json")
    ensures language + ".json" == f
  {
    f[..|f| - 5]
  }

  /** Naming the file of a language and taking its base name gives the language back. */
  lemma LanguageOfFileOfLanguage(language: string)
    ensures EndsWith(language + ".json", ".json")
    ensures LanguageOfFile(language + ".json") == language
  {
    var f := language + ".json";
    assert f[|f| - 5..] == ".json";
    assert f[..|f| - 5] == language;
  }

  /**
   * The auto-detected target languages: the base names of the translation
   * files of `files`, without the reference language, in listing order.
   */
  function DetectLanguages(files: seq<string>, reference: string): (languages: seq<string>)
    decreases |files|
  {
    if files == [] then []
    else
      var f := files[|files| - 1];
      var init := DetectLanguages(files[..|files| - 1], reference);
      if IsTranslationFile(f) && LanguageOfFile(f) != reference then init + [LanguageOfFile(f)] else init
  }

  /** A language is detected exactly when its file is listed, is a translation file and is not the reference's. */
  lemma {:induction false} DetectLanguagesExact(files: seq<string>, reference: string, language: string)
    ensures language in DetectLanguages(files, reference)
            <==> language != reference && language + ".json" in files && IsTranslationFile(language + ".json")
    decreases |files|
  {
    if files != [] {
      var f, init := files[|files| - 1], files[..|files| - 1];
      DetectLanguagesExact(init, reference, language);
      assert files == init + [f];
      LanguageOfFileOfLanguage(language);
    }
  }

  /** The reference language is never a detected target. */
  lemma ReferenceNotDetected(files: seq<string>, reference: string)
    ensures reference !in DetectLanguages(files, reference)
  {
    DetectLanguagesExact(files, reference, reference);
  }
}
