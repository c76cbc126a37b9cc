/** The translation function `t`: a two-level lookup with a fallback to the key itself, then
    `{name}` placeholders filled in one parameter at a time. */
module I18n {
  import opened Common

  datatype Language = Tr | En

  /** The two static string tables, Turkish being the fallback language. */
  datatype Translations = Translations(tr: map<string, string>, en: map<string, string>)

  function Table(ts: Translations, lang: Language): map<string, string> {
    match lang
    case Tr => ts.tr
    case En => ts.en
  }

  /** A JavaScript `||` operand that passes: present and not the empty string. */
  predicate HasText(m: map<string, string>, key: string) {
    key in m && m[key] != ""
  }

  /** `translations[language][key] || translations["tr"][key] || key`. */
  function Lookup(ts: Translations, lang: Language, key: string): (r: string)
    ensures HasText(Table(ts, lang), key) ==> r == Table(ts, lang)[key]
    ensures !HasText(Table(ts, lang), key) && HasText(ts.tr, key) ==> r == ts.tr[key]
    ensures !HasText(Table(ts, lang), key) && !HasText(ts.tr, key) ==> r == key
    ensures r != "" || key == ""
  {
    var current := Table(ts, lang);
    if HasText(current, key) then current[key]
    else if HasText(ts.tr, key) then ts.tr[key]
    else key
  }

  predicate OccursAt(text: string, pat: string, i: nat) {
    i + |pat| <= |text| && text[i..i + |pat|] == pat
  }

  /** `text.indexOf(pat, from)`: the first position at or after `from` where `pat` occurs. */
  function IndexOf(text: string, pat: string, from: nat): (r: Option<nat>)
    decreases |text| - from
    ensures r.Some? ==> from <= r.value && OccursAt(text, pat, r.value)
    ensures r.Some? ==> forall j :: from <= j < r.value ==> !OccursAt(text, pat, j)
    ensures r.None? <==> forall j :: from <= j <= |text| ==> !OccursAt(text, pat, j)
  {
    if from + |pat| > |text| then None
    else if text[from..from + |pat|] == pat then assert OccursAt(text, pat, from); Some(from)
    else IndexOf(text, pat, from + 1)
  }

  /** A literal first-occurrence replacement: `pat`'s first occurrence gives way to `value`. */
  function ReplaceFirst(text: string, pat: string, value: string): (r: string)
    ensures IndexOf(text, pat, 0).None? ==> r == text
    ensures IndexOf(text, pat, 0).Some? ==>
              var i := IndexOf(text, pat, 0).value;
              r == text[..i] + value + text[i + |pat|..]
  {
    match IndexOf(text, pat, 0)
    case None => text
    case Some(i) => text[..i] + value + text[i + |pat|..]
  }

  function Placeholder(name: string): string {
    "{" + name + "}"
  }

  /** Fills the parameters in, one after the other, in entry order: the last one works on the
      text the earlier ones produced. */
  function ApplyParams(text: string, params: seq<(string, string)>): (r: string)
    decreases |params|
    ensures |params| == 0 ==> r == text
    ensures |params| > 0 ==>
              var last := params[|params| - 1];
              r == ReplaceFirst(ApplyParams(text, params[..|params| - 1]), Placeholder(last.0), last.1)
  {
    if |params| == 0 then text
    else
      var n := |params|;
      assert n > 1 ==> params[..n - 1][0] == params[0] && params[..n - 1][1..] == params[1..][..n - 2];
      ApplyParams(ReplaceFirst(text, Placeholder(params[0].0), params[0].1), params[1..])
  }

  /** `t(key, params)` with placeholders filled in literally. */
  function T(ts: Translations, lang: Language, key: string, params: Option<seq<(string, string)>>): (r: string)
    ensures params.None? || params == Some([]) ==> r == Lookup(ts, lang, key)
  {
    match params
    case None => Lookup(ts, lang, key)
    case Some(ps) => ApplyParams(Lookup(ts, lang, key), ps)
  }

  // ---------------------------------------------------------------- properties

  /** A placeholder that does not occur leaves the text unchanged. */
  lemma AbsentPlaceholderIsNoop(text: string, name: string, value: string)
    requires forall j :: 0 <= j <= |text| ==> !OccursAt(text, Placeholder(name), j)
    ensures ReplaceFirst(text, Placeholder(name), value) == text
    ensures ReplaceFirstAsWritten(text, Placeholder(name), value) == text
  {
  }

  /** Only the first occurrence is replaced: a later, non-overlapping occurrence is still there,
      shifted by the difference in length. */
  lemma LaterOccurrenceRemains(text: string, pat: string, value: string, j: nat)
    requires IndexOf(text, pat, 0).Some?
    requires IndexOf(text, pat, 0).value + |pat| <= j
    requires OccursAt(text, pat, j)
    ensures OccursAt(ReplaceFirst(text, pat, value), pat, j - |pat| + |value|)
  {
    var i := IndexOf(text, pat, 0).value;
    var before, after := text[..i], text[i + |pat|..];
    var d := j - i - |pat|;
    var r := ReplaceFirst(text, pat, value);
    assert r == before + value + after;
    assert |before| == i;
    assert after[d..d + |pat|] == text[j..j + |pat|];
    SliceOfTail(before, value, after, d, |pat|);
    var k := |before| + |value| + d;
    assert k == j - |pat| + |value|;
    assert r[k..k + |pat|] == pat;
  }

  lemma SliceOfTail(a: string, b: string, c: string, d: nat, n: nat)
    requires d + n <= |c|
    ensures (a + b + c)[|a| + |b| + d..|a| + |b| + d + n] == c[d..d + n]
  {
    assert (a + b + c)[|a| + |b|..] == c;
  }

  /** Text inserted by an earlier parameter is subject to the later ones, so the order of the
      entries matters. */
  lemma InsertedTextIsSubstitutedLater()
    ensures ApplyParams("{a}", [("a", "{b}"), ("b", "x")]) == "x"
    ensures ApplyParams("{a}", [("b", "x"), ("a", "{b}")]) == "{b}"
  {
    assert IndexOf("{a}", "{a}", 0) == Some(0);
    assert IndexOf("{b}", "{b}", 0) == Some(0);
    assert IndexOf("{a}", "{b}", 0) == None by {
      assert "{a}"[0..3] != "{b}";
    }
  }

  /** A placeholder used twice is filled only once. */
  lemma RepeatedPlaceholderFilledOnce()
    ensures ApplyParams("{n}{n}", [("n", "1")]) == "1{n}"
  {
    assert IndexOf("{n}{n}", "{n}", 0) == Some(0);
  }

  // ---------------------------------------------------------------- the source's replace

  /** The replacement-pattern expansion `String.prototype.replace` applies to a string
      replacement (GetSubstitution of ECMA-262 with no capture groups): `$$` is a dollar sign,
      `$&` the matched text, `` $` `` the text before the match, `$'` the text after it; any
      other `$` stands for itself. */
  function Expand(rep: string, matched: string, before: string, after: string): (r: string)
    ensures DollarFree(rep) ==> r == rep
  {
    if |rep| == 0 then ""
    else if rep[0] == '$' && |rep| >= 2 && rep[1] == '$' then "$" + Expand(rep[2..], matched, before, after)
    else if rep[0] == '$' && |rep| >= 2 && rep[1] == '&' then matched + Expand(rep[2..], matched, before, after)
    else if rep[0] == '$' && |rep| >= 2 && rep[1] == '`' then before + Expand(rep[2..], matched, before, after)
    else if rep[0] == '$' && |rep| >= 2 && rep[1] == '\'' then after + Expand(rep[2..], matched, before, after)
    else
      assert DollarFree(rep) ==> DollarFree(rep[1..]) by {
        forall i | 0 <= i < |rep[1..]|
          ensures rep[1..][i] == rep[i + 1]
        {
        }
      }
      [rep[0]] + Expand(rep[1..], matched, before, after)
  }

  /** `text.replace(pat, value)` as JavaScript runs it: the text around the first occurrence
      is kept, and a value without `$` goes in literally. */
  function ReplaceFirstAsWritten(text: string, pat: string, value: string): (r: string)
    ensures IndexOf(text, pat, 0).None? ==> r == text
    ensures IndexOf(text, pat, 0).Some? ==>
              var i := IndexOf(text, pat, 0).value;
              var after := text[i + |pat|..];
              text[..i] <= r && |after| <= |r| && r[|r| - |after|..] == after
    ensures DollarFree(value) ==> r == ReplaceFirst(text, pat, value)
  {
    match IndexOf(text, pat, 0)
    case None => text
    case Some(i) =>
      var r := text[..i] + Expand(value, pat, text[..i], text[i + |pat|..]) + text[i + |pat|..];
      assert r[|r| - |text[i + |pat|..]|..] == text[i + |pat|..];
      r
  }

  /** The source's fold over the parameters: entry order, and the literal fold whenever no
      value holds a `$`. */
  function ApplyParamsAsWritten(text: string, params: seq<(string, string)>): (r: string)
    decreases |params|
    ensures |params| == 0 ==> r == text
    ensures |params| > 0 ==>
              var last := params[|params| - 1];
              r == ReplaceFirstAsWritten(ApplyParamsAsWritten(text, params[..|params| - 1]), Placeholder(last.0), last.1)
    ensures (forall k :: 0 <= k < |params| ==> DollarFree(params[k].1)) ==> r == ApplyParams(text, params)
  {
    if |params| == 0 then text
    else
      var n := |params|;
      assert n > 1 ==> params[..n - 1][0] == params[0] && params[..n - 1][1..] == params[1..][..n - 2];
      assert (forall k :: 0 <= k < n ==> DollarFree(params[k].1)) ==>
               forall k :: 0 <= k < n - 1 ==> DollarFree(params[1..][k].1) by {
        forall k | 0 <= k < n - 1
          ensures params[1..][k] == params[k + 1]
        {
        }
      }
      ApplyParamsAsWritten(ReplaceFirstAsWritten(text, Placeholder(params[0].0), params[0].1), params[1..])
  }

  /** `t` exactly as the source writes it; it agrees with the literal `T` on every lookup
      whose parameter values hold no `$`. */
  function TAsWritten(ts: Translations, lang: Language, key: string,
                      params: Option<seq<(string, string)>>): (r: string)
    ensures params.None? || params == Some([]) ==> r == Lookup(ts, lang, key)
    ensures params.Some? && (forall k :: 0 <= k < |params.value| ==> DollarFree(params.value[k].1)) ==>
              r == T(ts, lang, key, params)
  {
    match params
    case None => Lookup(ts, lang, key)
    case Some(ps) => ApplyParamsAsWritten(Lookup(ts, lang, key), ps)
  }

  predicate DollarFree(s: string) {
    forall i :: 0 <= i < |s| ==> s[i] != '$'
  }

  /** Only the first occurrence is replaced by the source's replace as well: a later,
      non-overlapping occurrence is still there, shifted by the length of the expanded value. */
  lemma LaterOccurrenceRemainsAsWritten(text: string, pat: string, value: string, j: nat)
    requires IndexOf(text, pat, 0).Some?
    requires IndexOf(text, pat, 0).value + |pat| <= j
    requires OccursAt(text, pat, j)
    ensures var i := IndexOf(text, pat, 0).value;
            var expanded := Expand(value, pat, text[..i], text[i + |pat|..]);
            OccursAt(ReplaceFirstAsWritten(text, pat, value), pat, j - |pat| + |expanded|)
  {
    var i := IndexOf(text, pat, 0).value;
    var expanded := Expand(value, pat, text[..i], text[i + |pat|..]);
    var k := j - |pat| + |expanded|;
    AsWrittenIsLiteralOfExpansion(text, pat, value);
    LaterOccurrenceRemains(text, pat, expanded, j);
    assert OccursAt(ReplaceFirst(text, pat, expanded), pat, k);
  }

  /** The source's replace is the literal one applied to the expanded value. */
  lemma AsWrittenIsLiteralOfExpansion(text: string, pat: string, value: string)
    requires IndexOf(text, pat, 0).Some?
    ensures var i := IndexOf(text, pat, 0).value;
            ReplaceFirstAsWritten(text, pat, value)
              == ReplaceFirst(text, pat, Expand(value, pat, text[..i], text[i + |pat|..]))
  {
    var i := IndexOf(text, pat, 0).value;
    assert IndexOf(text, pat, 0) == Some(i);
  }

  /** A saved calculation named `$&` loads with the toast text "{name}" instead of its own
      name: the source re-inserts the placeholder where a literal replacement shows the name. */
  lemma DollarNameCounterexample()
    ensures ReplaceFirstAsWritten(Placeholder("name"), Placeholder("name"), "$&") == Placeholder("name")
    ensures ReplaceFirst(Placeholder("name"), Placeholder("name"), "$&") == "$&"
  {
    assert Placeholder("name") == "{name}";
    assert IndexOf("{name}", "{name}", 0) == Some(0);
    assert Expand("$&", "{name}", "", "") == "{name}" by {
      assert "$&"[2..] == "";
    }
  }
}
