/**
 * `detectType` (script.js:613-623): the type of a desktop window, taken from the
 * `alt` (or else `src`) of the image in its title bar by the first keyword it
 * contains, with `window-N` for a window that matches none.
 */
module WindowTypes {
  import opened Wrappers
  import opened JsText

  /** The `<img>` in a window's title bar: its `alt` and `src` attributes. */
  datatype TitleImage = TitleImage(alt: string, src: string)

  /**
   * `img ? (img.alt || img.src || '') : ''`.  An empty string is falsy, so an
   * empty `alt` falls through to `src`, and an empty `src` to `''`.
   */
  function TitleText(img: Option<TitleImage>): (r: string)
    ensures img.Some? && img.value.alt != "" ==> r == img.value.alt
    ensures r == "" || (img.Some? && (r == img.value.alt || r == img.value.src))
    ensures img.Some? && img.value.alt == "" ==> r == img.value.src
    ensures img.None? ==> r == ""
  {
    match img
    case None => ""
    case Some(i) => if i.alt != "" then i.alt else i.src
  }

  /** The keywords in the order they are tested, each with the type it gives. */
  const Rules: seq<(string, string)> := [
    ("project", "projects"),
    ("link", "links"),
    ("mc skin", "mc-skin"),
    ("support", "support"),
    ("discord", "discord")
  ]

  /** `` `window-${fallbackIndex}` ``. */
  function FallbackType(index: nat): string {
    "window-" + NatToString(index)
  }

  /** `detectType(winEl, fallbackIndex)`, with the title image in place of the element. */
  function DetectType(img: Option<TitleImage>, index: nat): (r: string)
    ensures r in {"projects", "links", "mc-skin", "support", "discord"} || r == FallbackType(index)
  {
    Classify(ToLower(TitleText(img)), index)
  }

  /** The keyword tests of `detectType` on the lower-cased title text. */
  function Classify(text: string, index: nat): (r: string)
    ensures r in {"projects", "links", "mc-skin", "support", "discord"} || r == FallbackType(index)
    ensures (!Contains(text, "project") && !Contains(text, "link") && !Contains(text, "mc skin")
      && !Contains(text, "support") && !Contains(text, "discord")) ==> r == FallbackType(index)
  {
    if Contains(text, "project") then "projects"
    else if Contains(text, "link") then "links"
    else if Contains(text, "mc skin") then "mc-skin"
    else if Contains(text, "support") then "support"
    else if Contains(text, "discord") then "discord"
    else FallbackType(index)
  }

  /** Reference reading of a rule table: the type of the first rule whose keyword occurs. */
  function FirstRule(text: string, rules: seq<(string, string)>): Option<string>
    decreases |rules|
  {
    if |rules| == 0 then None
    else if Contains(text, rules[0].0) then Some(rules[0].1)
    else FirstRule(text, rules[1..])
  }

  /** `detectType` is the rule table read first to last, with the fallback when no rule fires. */
  lemma DetectTypeByRules(img: Option<TitleImage>, index: nat)
    ensures DetectType(img, index) == match FirstRule(ToLower(TitleText(img)), Rules)
      case Some(t) => t
      case None => FallbackType(index)
  {
    var text := ToLower(TitleText(img));
    var r := Rules;
    assert r[1..][1..][1..][1..][1..] == [];
    assert FirstRule(text, r[1..][1..][1..][1..]) == FirstRule(text, [("discord", "discord")]);
  }

  /** Rule `k` fires on `text` and no earlier rule does. */
  predicate FiresFirst(text: string, rules: seq<(string, string)>, k: nat)
    requires k < |rules|
  {
    Contains(text, rules[k].0) && forall j :: 0 <= j < k ==> !Contains(text, rules[j].0)
  }

  /** The first rule that fires gives the result. */
  lemma {:induction false} FirstRuleAt(text: string, rules: seq<(string, string)>, k: nat)
    requires k < |rules| && FiresFirst(text, rules, k)
    ensures FirstRule(text, rules) == Some(rules[k].1)
    decreases k
  {
    if k > 0 {
      assert !Contains(text, rules[0].0);
      assert FiresFirst(text, rules[1..], k - 1) by {
        forall j | 0 <= j < k - 1 ensures !Contains(text, rules[1..][j].0) {
          assert rules[1..][j] == rules[j + 1];
        }
      }
      FirstRuleAt(text, rules[1..], k - 1);
    }
  }

  /** A result of the table always comes from the first rule that fires. */
  lemma {:induction false} FirstRuleFires(text: string, rules: seq<(string, string)>)
    requires FirstRule(text, rules).Some?
    ensures exists k :: 0 <= k < |rules| && FiresFirst(text, rules, k) && FirstRule(text, rules) == Some(rules[k].1)
    decreases |rules|
  {
    if !Contains(text, rules[0].0) {
      FirstRuleFires(text, rules[1..]);
      var k :| 0 <= k < |rules[1..]| && FiresFirst(text, rules[1..], k) && FirstRule(text, rules[1..]) == Some(rules[1..][k].1);
      assert FiresFirst(text, rules, k + 1) by {
        forall j | 0 <= j < k + 1 ensures !Contains(text, rules[j].0) {
          if j > 0 { assert rules[j] == rules[1..][j - 1]; }
        }
      }
      assert FirstRule(text, rules) == Some(rules[k + 1].1);
    } else {
      assert FiresFirst(text, rules, 0);
    }
  }

  /** A fallback type can never be mistaken for one of the named types. */
  lemma FallbackNotNamed(index: nat, k: nat)
    requires k < |Rules|
    ensures FallbackType(index) != Rules[k].1
  {
    assert FallbackType(index)[0] == 'w';
    assert Rules[k].1[0] != 'w';
  }

  /** Different positions give different fallback types. */
  lemma FallbackInjective(m: nat, n: nat)
    requires FallbackType(m) == FallbackType(n)
    ensures m == n
  {
    var p := "window-";
    assert NatToString(m) == FallbackType(m)[|p|..];
    assert NatToString(n) == FallbackType(n)[|p|..];
    NatToStringInjective(m, n);
  }

  /** A window with no title image always gets its fallback type. */
  lemma UntitledFallback(index: nat)
    ensures DetectType(None, index) == FallbackType(index)
  {
    var text := ToLower(TitleText(None));
    assert text == "";
    forall sub | sub in ["project", "link", "mc skin", "support", "discord"] ensures !Contains(text, sub) {
      ContainsIff(text, sub);
    }
  }

  lemma {:induction false} ToLowerIdempotent(s: string)
    ensures ToLower(ToLower(s)) == ToLower(s)
  {
    var t := ToLower(s);
    assert forall i :: 0 <= i < |s| ==> LowerChar(t[i]) == t[i];
  }

  /** Classification ignores the case of the title attributes. */
  lemma DetectTypeCaseInsensitive(alt: string, src: string, index: nat)
    ensures DetectType(Some(TitleImage(alt, src)), index)
      == DetectType(Some(TitleImage(ToLower(alt), ToLower(src))), index)
  {
    ToLowerIdempotent(alt);
    ToLowerIdempotent(src);
    assert alt != "" <==> ToLower(alt) != "";
    assert ToLower(TitleText(Some(TitleImage(alt, src))))
      == ToLower(TitleText(Some(TitleImage(ToLower(alt), ToLower(src)))));
  }
}
