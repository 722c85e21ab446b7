/** The interface language and the translation lookup `t` of
    `LocaleProvider`: a key is looked up in the current language's table,
    falling back to the key itself, and each `{name}` placeholder is filled
    in from the parameters, first occurrence only. Only a few entries of the
    tables are written out. */
module Locale {

  import opened Wrappers
  import opened Text

  datatype Language = Ru | Kk | En

  /** One parameter of `t`: the placeholder's name and the text put in its
      place. The parameters are visited in the order of `Object.keys`. */
  datatype Param = Param(name: string, value: string)

  /** A few entries of each language's table. */
  function Translations(language: Language): map<string, string> {
    match language
    case Ru => map[
      "header.title" := "ZeroHub",
      "header.compare" := "Сравнение",
      "toast.addedToCompare" := "Добавлено в сравнение",
      "toast.addedToCompareDescription" := "Университет \"{name}\" добавлен в список сравнения"]
    case Kk => map[
      "header.title" := "ZeroHub",
      "toast.addedToCompare" := "Салыстыруға қосылды",
      "toast.addedToCompareDescription" := "Университет \"{name}\" салыстыру тізіміне қосылды"]
    case En => map[
      "header.title" := "ZeroHub",
      "header.compare" := "Compare",
      "toast.addedToCompare" := "Added to Compare",
      "toast.addedToCompareDescription" := "University \"{name}\" has been added to comparison"]
  }

  /** `translations[locale][key] || key`: a missing key and an empty
      translation both give the key back. */
  function Lookup(table: map<string, string>, key: string): (text: string)
    ensures key in table && table[key] != [] ==> text == table[key]
    ensures key !in table || table[key] == [] ==> text == key
    ensures text != [] || key == []
  {
    if key in table && table[key] != [] then table[key] else key
  }

  function Placeholder(name: string): string {
    "{" + name + "}"
  }

  /** The text after the parameters' `replace` calls, in order. When none of
      the parameters' placeholders occurs, the text comes back unchanged. */
  function Substitute(text: string, params: seq<Param>): (r: string)
    ensures (forall k, j: nat :: 0 <= k < |params| ==> !OccursAt(text, Placeholder(params[k].name), j)) ==> r == text
    decreases |params|
  {
    if params == [] then text
    else
      assert forall k :: 0 <= k < |params| - 1 ==> params[1..][k] == params[k + 1];
      Substitute(ReplaceFirst(text, Placeholder(params[0].name), params[0].value), params[1..])
  }

  /** A name `t` can fill in: it holds no brace. */
  predicate BraceFree(name: string) {
    '{' !in name && '}' !in name
  }

  class LocaleProvider {
    var locale: Language

    /** The language starts as the default one (the stored choice is not
        read here). */
    constructor (defaultLocale: Language)
      ensures locale == defaultLocale
    {
      locale := defaultLocale;
    }

    /** `t(key, params)`: the lookup, then one `replace` per parameter. */
    method T(key: string, params: seq<Param>) returns (text: string)
      ensures text == Substitute(Lookup(Translations(locale), key), params)
      ensures params == [] ==> text == Lookup(Translations(locale), key)
    {
      text := Lookup(Translations(locale), key);
      var k := 0;
      while k < |params|
        invariant k <= |params|
        invariant Substitute(text, params[k..]) == Substitute(Lookup(Translations(locale), key), params)
      {
        assert params[k..][1..] == params[k + 1..];
        text := ReplaceFirst(text, Placeholder(params[k].name), params[k].value);
        k := k + 1;
      }
    }

    /** `setLocale`: later lookups use the new language's table (the choice
        is also stored, which is not modelled). */
    method SetLocale(newLocale: Language)
      modifies this
      ensures locale == newLocale
    {
      locale := newLocale;
    }
  }

  /** Where two occurrences overlap, both fix the character at `x`. */
  lemma SharedChar(s: string, a: string, k: nat, b: string, i: nat, x: nat)
    requires OccursAt(s, a, k) && OccursAt(s, b, i)
    requires k <= x < k + |a| && i <= x < i + |b|
    ensures s[x] == a[x - k] && s[x] == b[x - i]
  {
    assert s[k..k + |a|][x - k] == s[x];
    assert s[i..i + |b|][x - i] == s[x];
  }

  /** Two placeholders with different brace-free names never overlap. */
  lemma PlaceholdersApart(s: string, n: string, q: string, k: nat, i: nat)
    requires BraceFree(n) && BraceFree(q) && n != q
    requires OccursAt(s, Placeholder(n), k) && OccursAt(s, Placeholder(q), i)
    ensures i + |q| + 2 <= k || k + |n| + 2 <= i
  {
    var pn, pq := Placeholder(n), Placeholder(q);
    if k < i < k + |pn| {
      SharedChar(s, pn, k, pq, i, i);
      assert false;
    } else if i < k < i + |pq| {
      SharedChar(s, pn, k, pq, i, k);
      assert false;
    } else if i == k && |n| < |q| {
      SharedChar(s, pn, k, pq, i, k + |n| + 1);
      assert false;
    } else if i == k && |q| < |n| {
      SharedChar(s, pn, k, pq, i, k + |q| + 1);
      assert false;
    } else if i == k {
      forall m | 0 <= m < |n| ensures n[m] == q[m] {
        SharedChar(s, pn, k, pq, i, k + m + 1);
      }
      assert false;
    }
  }

  lemma OccursLeft(a: string, b: string, pat: string, j: nat)
    requires OccursAt(a, pat, j)
    ensures OccursAt(a + b, pat, j)
  {
    assert (a + b)[j..j + |pat|] == a[j..j + |pat|];
  }

  lemma OccursRight(a: string, b: string, pat: string, j: nat)
    requires OccursAt(b, pat, j)
    ensures OccursAt(a + b, pat, |a| + j)
  {
    assert (a + b)[|a| + j..|a| + j + |pat|] == b[j..j + |pat|];
  }

  lemma OccursInSlice(s: string, pat: string, lo: nat, hi: nat, j: nat)
    requires lo <= j && j + |pat| <= hi <= |s| && OccursAt(s, pat, j)
    ensures OccursAt(s[lo..hi], pat, j - lo)
  {
    var t := s[lo..hi];
    forall m | 0 <= m < |pat| ensures t[j - lo..j - lo + |pat|][m] == pat[m] {
      assert t[j - lo + m] == s[j + m] == s[j..j + |pat|][m];
    }
  }

  /** An occurrence wholly before the replaced stretch `[k, k + m)` stays put. */
  lemma KeptBefore(s: string, pat: string, i: nat, k: nat, m: nat, v: string)
    requires i + |pat| <= k && k + m <= |s| && OccursAt(s, pat, i)
    ensures OccursAt(s[..k] + v + s[k + m..], pat, i)
  {
    OccursInSlice(s, pat, 0, k, i);
    OccursLeft(s[..k], v + s[k + m..], pat, i);
    assert s[..k] + v + s[k + m..] == s[..k] + (v + s[k + m..]);
  }

  /** An occurrence wholly after the replaced stretch `[k, k + m)` moves by
      the difference in length. */
  lemma KeptAfter(s: string, pat: string, i: nat, k: nat, m: nat, v: string)
    requires k + m <= i && OccursAt(s, pat, i)
    ensures OccursAt(s[..k] + v + s[k + m..], pat, k + |v| + (i - (k + m)))
  {
    OccursInSlice(s, pat, k + m, |s|, i);
    OccursRight(s[..k] + v, s[k + m..], pat, i - (k + m));
  }

  /** One `replace` for another name keeps an occurrence of `{q}`. */
  lemma ReplaceKeepsOther(s: string, n: string, v: string, q: string, i: nat)
    requires BraceFree(n) && BraceFree(q) && n != q
    requires OccursAt(s, Placeholder(q), i)
    ensures exists j: nat :: OccursAt(ReplaceFirst(s, Placeholder(n), v), Placeholder(q), j)
  {
    var pn, pq := Placeholder(n), Placeholder(q);
    match IndexOf(s, pn)
    case None =>
      assert ReplaceFirst(s, pn, v) == s;
      assert OccursAt(ReplaceFirst(s, pn, v), pq, i);
    case Some(k) =>
      PlaceholdersApart(s, n, q, k, i);
      assert ReplaceFirst(s, pn, v) == s[..k] + v + s[k + |pn|..];
      if i + |pq| <= k {
        KeptBefore(s, pq, i, k, |pn|, v);
        assert OccursAt(ReplaceFirst(s, pn, v), pq, i);
      } else {
        KeptAfter(s, pq, i, k, |pn|, v);
        assert OccursAt(ReplaceFirst(s, pn, v), pq, k + |v| + (i - (k + |pn|)));
      }
  }

  /** A placeholder that no parameter names is left in the text, whatever
      else `t` fills in: unknown `{q}` survives every `replace`. */
  lemma {:induction false} UnknownPlaceholderKept(text: string, params: seq<Param>, q: string, i: nat)
    requires BraceFree(q)
    requires forall k :: 0 <= k < |params| ==> BraceFree(params[k].name) && params[k].name != q
    requires OccursAt(text, Placeholder(q), i)
    ensures exists j: nat :: OccursAt(Substitute(text, params), Placeholder(q), j)
    decreases |params|
  {
    if params == [] {
      assert OccursAt(Substitute(text, params), Placeholder(q), i);
    } else {
      var next := ReplaceFirst(text, Placeholder(params[0].name), params[0].value);
      assert Substitute(text, params) == Substitute(next, params[1..]);
      assert forall k :: 0 <= k < |params| - 1 ==> params[1..][k] == params[k + 1];
      ReplaceKeepsOther(text, params[0].name, params[0].value, q, i);
      var j: nat :| OccursAt(next, Placeholder(q), j);
      UnknownPlaceholderKept(next, params[1..], q, j);
    }
  }

  /** Only the first occurrence of a placeholder is filled in: whatever
      follows it, later occurrences included, is kept verbatim. */
  lemma FirstOccurrenceOnly(a: string, name: string, b: string, value: string)
    requires '{' !in a
    ensures Substitute(a + Placeholder(name) + b, [Param(name, value)]) == a + value + b
  {
    IndexOfAfterFree(a, Placeholder(name));
    ReplaceFirstSplits(a, Placeholder(name), b, value);
  }

  /** The English template of that toast, cut at its placeholder. */
  lemma AddedToCompareTemplate(template: string)
    requires template == "University \"" + "{name}" + "\" has been added to comparison"
    ensures template == Translations(En)["toast.addedToCompareDescription"]
  {
  }

  /** The English toast for a university added to the comparison. */
  lemma AddedToCompareToast(name: string)
    ensures Substitute(Lookup(Translations(En), "toast.addedToCompareDescription"), [Param("name", name)])
      == "University \"" + name + "\" has been added to comparison"
  {
    var a, b := "University \"", "\" has been added to comparison";
    assert Placeholder("name") == "{name}";
    AddedToCompareTemplate(a + Placeholder("name") + b);
    FirstOccurrenceOnly(a, "name", b, name);
  }

  /** Switching the language switches the table `t` reads. */
  method SwitchLanguage()
  {
    var provider := new LocaleProvider(Ru);
    provider.SetLocale(En);
    var text := provider.T("header.compare", []);
    assert text == "Compare";
    text := provider.T("missing.key", []);
    assert text == "missing.key";
  }
}
