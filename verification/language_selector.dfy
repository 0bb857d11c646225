/**
 * The language selector: the label shown for each locale and the path the router is
 * sent to when another locale is chosen.
 */
module LanguageSelector {
  import opened Wrappers
  import Strings

  /** The locales the site is routed by, in the order the selector lists them. */
  const Locales: seq<string> := ["be", "de", "en", "es", "ru"]

  /** `getLanguageName`: the native name of a known locale, otherwise the code in capitals. */
  function LanguageName(locale: string): string {
    if locale == "be" then "Беларуская"
    else if locale == "de" then "Deutsch"
    else if locale == "en" then "English"
    else if locale == "es" then "Español"
    else if locale == "ru" then "Русский"
    else Strings.ToUpperAscii(locale)
  }

  /** Every option of the selector has its own label, and no label is empty. */
  lemma LabelsDistinct()
    ensures forall i, j :: 0 <= i < j < |Locales| ==> LanguageName(Locales[i]) != LanguageName(Locales[j])
    ensures forall i :: 0 <= i < |Locales| ==> LanguageName(Locales[i]) != []
  {
    assert LanguageName("be")[0] == 'Б' && LanguageName("de")[0] == 'D' && LanguageName("en")[0] == 'E';
    assert LanguageName("es")[0] == 'E' && LanguageName("ru")[0] == 'Р';
    assert LanguageName("en")[1] == 'n' && LanguageName("es")[1] == 's';
  }

  /** A code outside the table is shown in capitals, letter for letter. */
  lemma UnknownCodeCapitalised(locale: string)
    requires locale !in Locales
    ensures |LanguageName(locale)| == |locale|
    ensures forall i :: 0 <= i < |locale| ==> LanguageName(locale)[i] == Strings.UpperChar(locale[i])
  {
  }

  /** Whether the second `/`-segment of a path names a locale. */
  predicate HasLocaleSegment(segments: seq<string>) {
    |segments| > 1 && segments[1] in Locales
  }

  /**
   * `handleLanguageChange`: no navigation for an empty pathname; the locale segment
   * replaced when there is one; otherwise the new locale put in front of the path.
   */
  function Target(pathname: string, newLocale: string): Option<string> {
    if pathname == [] then None
    else
      var segments := Strings.Split(pathname, '/');
      if HasLocaleSegment(segments) then Some(Strings.Join(segments[1 := newLocale], "/"))
      else Some("/" + newLocale + pathname)
  }

  /** Replacing the locale segment keeps the number of segments and every other segment. */
  lemma ReplaceKeepsSegments(pathname: string, newLocale: string)
    requires pathname != [] && '/' !in newLocale
    requires HasLocaleSegment(Strings.Split(pathname, '/'))
    ensures Target(pathname, newLocale).Some?
    ensures Strings.Split(Target(pathname, newLocale).value, '/') == Strings.Split(pathname, '/')[1 := newLocale]
  {
    var segments := Strings.Split(pathname, '/');
    var t := segments[1 := newLocale];
    assert Strings.NoneContains(t, '/') by {
      forall i | 0 <= i < |t|
        ensures '/' !in t[i]
      {
        if i != 1 {
          assert t[i] == segments[i];
        }
      }
    }
    Strings.SplitJoin(t, '/');
  }

  /** A path without a locale segment gets the new locale in front of it. */
  lemma PrefixWhenNoLocale(pathname: string, newLocale: string)
    requires pathname != [] && !HasLocaleSegment(Strings.Split(pathname, '/'))
    ensures Target(pathname, newLocale) == Some("/" + newLocale + pathname)
  {
  }

  /** Choosing one locale and then another from the page it led to is the same as choosing the second directly. */
  lemma SwitchTwice(pathname: string, first: string, second: string)
    requires pathname != [] && first in Locales && '/' !in first && '/' !in second
    requires HasLocaleSegment(Strings.Split(pathname, '/'))
    ensures Target(Target(pathname, first).value, second) == Target(pathname, second)
  {
    var segments := Strings.Split(pathname, '/');
    ReplaceKeepsSegments(pathname, first);
    var mid := Target(pathname, first).value;
    assert HasLocaleSegment(Strings.Split(mid, '/'));
    assert Strings.Split(mid, '/')[1 := second] == segments[1 := second];
    assert mid != [] by {
      Strings.JoinSplit(mid, '/');
    }
  }

  /** The selector's chosen value and the paths it has pushed to the router, oldest first. */
  class LanguageSelector {
    var selectedLocale: string
    var pushed: seq<string>

    constructor ()
      ensures selectedLocale == [] && pushed == []
    {
      selectedLocale := [];
      pushed := [];
    }

    /** `handleLanguageChange(newLocale)` on the current pathname (`null` taken as empty). */
    method HandleLanguageChange(pathname: string, newLocale: string)
      modifies this
      ensures selectedLocale == newLocale
      ensures pushed == old(pushed) + (if Target(pathname, newLocale).Some? then [Target(pathname, newLocale).value] else [])
    {
      selectedLocale := newLocale;
      if pathname == [] {
        return;
      }
      var parts := Strings.Split(pathname, '/');
      var segments := new string[|parts|](i requires 0 <= i < |parts| => parts[i]);
      if segments.Length > 1 && segments[1] in Locales {
        segments[1] := newLocale;
        assert segments[..] == parts[1 := newLocale];
        pushed := pushed + [Strings.Join(segments[..], "/")];
      } else {
        pushed := pushed + ["/" + newLocale + pathname];
      }
    }
  }
}
