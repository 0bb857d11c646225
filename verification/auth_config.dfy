/**
 * The authorization callback of the authentication configuration: which request
 * paths need a signed-in user. Pages are served under a locale prefix
 * (`/en/rest`, `/de/history/...`), and only the protected sections require a user.
 */
module AuthConfig {
  import Strings
  import LanguageSelector

  /** The sections that need a signed-in user. */
  const Protected: set<string> := {"rest", "history", "variables"}

  /** Which reading of the path check is used: the one in the source, or the one it evidently intends. */
  datatype Reading = AsWritten | Corrected

  /** `s.slice(n)` for a non-negative `n`: the empty string once `n` passes the end. */
  function Slice(s: string, n: nat): (r: string)
    ensures n <= |s| ==> r == s[n..]
    ensures n >= |s| ==> r == []
  {
    if n <= |s| then s[n..] else []
  }

  /**
   * The text looked up among the protected sections. As written it is the pathname
   * after its first three characters; corrected, it is the segment after the locale
   * (the third piece of the pathname split on `/`).
   */
  function CheckedPath(pathname: string, reading: Reading): string {
    match reading
    case AsWritten => Slice(pathname, 3)
    case Corrected =>
      var parts := Strings.Split(pathname, '/');
      if |parts| >= 3 then parts[2] else []
  }

  predicate NeedsAuth(pathname: string, reading: Reading) {
    CheckedPath(pathname, reading) in Protected
  }

  /** The `authorized` callback: a path that needs no user is let through; otherwise a user is required. */
  function Authorized(pathname: string, hasUser: bool, reading: Reading): (ok: bool)
    ensures !NeedsAuth(pathname, reading) ==> ok
    ensures NeedsAuth(pathname, reading) ==> (ok <==> hasUser)
  {
    if !NeedsAuth(pathname, reading) then true else hasUser
  }

  /**
   * As written, a path whose fourth character is `/` never needs a user: what is
   * looked up then starts with `/`, and no protected section does.
   */
  lemma SlashAtThreeUnprotected(pathname: string)
    requires |pathname| > 3 && pathname[3] == '/'
    ensures !NeedsAuth(pathname, AsWritten)
    ensures Authorized(pathname, false, AsWritten)
  {
    var checked := CheckedPath(pathname, AsWritten);
    assert checked[0] == '/';
    assert forall p | p in Protected :: p == [] || p[0] != '/';
  }

  /** As written, every protected page under every locale prefix is let through without a user. */
  lemma LocalePagesUnprotected(locale: string, section: string, rest: string)
    requires locale in LanguageSelector.Locales
    ensures Authorized("/" + locale + "/" + section + rest, false, AsWritten)
  {
    var pathname := "/" + locale + "/" + section + rest;
    assert |locale| == 2;
    assert pathname[3] == '/';
    SlashAtThreeUnprotected(pathname);
  }

  /** Splitting a locale-prefixed pathname on `/`: the empty piece, the locale, the section. */
  lemma LocalePathPieces(locale: string, section: string, rest: string)
    requires '/' !in locale && '/' !in section
    requires rest == [] || rest[0] == '/'
    ensures var parts := Strings.Split("/" + locale + "/" + section + rest, '/');
      |parts| >= 3 && parts[0] == [] && parts[1] == locale && parts[2] == section
  {
    var tail := section + rest;
    if rest == [] {
      Strings.SplitNoSeparator(section, '/');
      assert tail == section;
    } else {
      Strings.SplitPrefix(section, rest[1..], '/');
      assert tail == section + ['/'] + rest[1..];
    }
    Strings.SplitPrefix(locale, tail, '/');
    Strings.SplitPrefix([], locale + ['/'] + tail, '/');
    assert "/" + locale + "/" + section + rest == [] + ['/'] + (locale + ['/'] + tail);
  }

  /**
   * Corrected, a page under a locale prefix needs a user exactly when its section is
   * protected, whatever follows the section.
   */
  lemma CorrectedChecksSection(locale: string, section: string, rest: string, hasUser: bool)
    requires '/' !in locale && '/' !in section
    requires rest == [] || rest[0] == '/'
    ensures NeedsAuth("/" + locale + "/" + section + rest, Corrected) <==> section in Protected
    ensures Authorized("/" + locale + "/" + section + rest, hasUser, Corrected) <==> hasUser || section !in Protected
  {
    LocalePathPieces(locale, section, rest);
  }

  /** Corrected, every protected page under every locale prefix is let through only with a user. */
  lemma CorrectedProtectsLocalePages(locale: string, section: string, rest: string, hasUser: bool)
    requires locale in LanguageSelector.Locales && section in Protected
    requires rest == [] || rest[0] == '/'
    ensures Authorized("/" + locale + "/" + section + rest, hasUser, Corrected) == hasUser
  {
    assert '/' !in locale;
    assert '/' !in section;
    CorrectedChecksSection(locale, section, rest, hasUser);
  }
}
