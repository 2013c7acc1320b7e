/** `translateBackendError`: the frontend turns the English error messages
    of the basket routes into Turkish by looking for key phrases, trying
    seven rules in order and putting the first double-quoted name of the
    message in front of the Turkish text. */
module BackendErrors {
  import opened Wrappers
  import opened Strings
  import opened Translations

  // ---------------------------------------------------------------------------
  // The first quoted name
  // ---------------------------------------------------------------------------

  /** `/"([^"]+)"/` matches at `i` and ends at `j`: a quote at each end
      and at least one character, none of them a quote, in between. */
  predicate QuotedAt(s: string, i: int, j: int) {
    0 <= i && i + 1 < j < |s| && s[i] == '"' && s[j] == '"'
    && forall k :: i < k < j ==> s[k] != '"'
  }

  /** The index of the first quote at or after `k`. */
  function NextQuote(s: string, k: nat): (r: Option<nat>)
    ensures r.Some? ==> k <= r.value < |s| && s[r.value] == '"'
    ensures r.Some? ==> forall m :: k <= m < r.value ==> s[m] != '"'
    ensures r.None? ==> forall m :: k <= m < |s| ==> s[m] != '"'
    decreases |s| - k
  {
    if k >= |s| then None
    else if s[k] == '"' then Some(k)
    else NextQuote(s, k + 1)
  }

  /** The leftmost match starting at or after `k`. */
  function MatchFrom(s: string, k: nat): (r: Option<(nat, nat)>)
    ensures r.Some? ==> k <= r.value.0 && QuotedAt(s, r.value.0, r.value.1)
    ensures r.Some? ==> forall i, j :: k <= i < r.value.0 ==> !QuotedAt(s, i, j)
    ensures r.None? ==> forall i, j :: k <= i ==> !QuotedAt(s, i, j)
    decreases |s| - k
  {
    if k >= |s| then None
    else
      var close := NextQuote(s, k + 1);
      if s[k] == '"' && close.Some? && close.value > k + 1 then Some((k, close.value))
      else
        assert forall j :: !QuotedAt(s, k, j);
        MatchFrom(s, k + 1)
  }

  /** `errorMessage.match(/"([^"]+)"/g)[0]`, quotes included, or `''`
      when there is no match. */
  function FirstQuoted(s: string): (r: string)
    ensures r == "" <==> forall i, j :: !QuotedAt(s, i, j)
    ensures r != "" ==> exists i, j ::
      (QuotedAt(s, i, j) && r == s[i..j + 1] && forall i', j' :: 0 <= i' < i ==> !QuotedAt(s, i', j'))
  {
    match MatchFrom(s, 0)
    case Some((i, j)) => s[i..j + 1]
    case None => ""
  }

  /** A match is determined by where it starts. */
  lemma QuotedAtUnique(s: string, i: int, j1: int, j2: int)
    requires QuotedAt(s, i, j1) && QuotedAt(s, i, j2)
    ensures j1 == j2
  {
  }

  /** No match starts before the first quote. */
  lemma NoQuoteNoMatch(s: string, n: nat)
    requires forall k :: 0 <= k < n && k < |s| ==> s[k] != '"'
    ensures forall i, j :: 0 <= i < n ==> !QuotedAt(s, i, j)
  {
  }

  lemma MiddleSlice<T>(a: seq<T>, b: seq<T>, c: seq<T>)
    ensures (a + b + c)[|a|..|a| + |b|] == b
  {
  }

  /** A message with one quoted name gives that name, quotes included. */
  lemma QuotedName(pre: string, name: string, post: string)
    requires |name| > 0
    requires forall k :: 0 <= k < |pre| ==> pre[k] != '"'
    requires forall k :: 0 <= k < |name| ==> name[k] != '"'
    ensures var quoted := ['"'] + name + ['"'];
      FirstQuoted(pre + quoted + post) == quoted
  {
    var quoted := ['"'] + name + ['"'];
    var s := pre + quoted + post;
    var i, j := |pre|, |pre| + |name| + 1;
    assert forall k :: 0 <= k < i ==> s[k] == pre[k];
    assert forall k :: i <= k <= j ==> s[k] == quoted[k - i];
    assert forall k :: 0 < k < |quoted| - 1 ==> quoted[k] == name[k - 1];
    NoQuoteNoMatch(s, i);
    assert QuotedAt(s, i, j);
    var r := FirstQuoted(s);
    var i0, j0 :| QuotedAt(s, i0, j0) && r == s[i0..j0 + 1]
      && forall i', j' :: 0 <= i' < i0 ==> !QuotedAt(s, i', j');
    assert i0 == i;
    QuotedAtUnique(s, i, j, j0);
    MiddleSlice(pre, quoted, post);
  }

  // ---------------------------------------------------------------------------
  // The rules
  // ---------------------------------------------------------------------------

  /** A rule fires when every clause has a phrase the message contains; its
      Turkish text follows the quoted name. */
  datatype Rule = Rule(clauses: seq<seq<string>>, text: string)

  predicate ClauseHolds(message: string, clause: seq<string>) {
    exists p :: 0 <= p < |clause| && Contains(message, clause[p])
  }

  predicate Fires(message: string, rule: Rule) {
    forall c :: 0 <= c < |rule.clauses| ==> ClauseHolds(message, rule.clauses[c])
  }

  const InBasket := "already in your basket"

  /** The seven rules of `translateBackendError`, in the order tried. */
  const Rules: seq<Rule> := [
    Rule([[InBasket], ["section"]], " b\U{00F6}l\U{00FC}m\U{00FC} zaten sepetinizde"),
    Rule([[InBasket], ["Course"]], " dersi zaten sepetinizde"),
    Rule([["A section of"], ["Remove the section first"]],
         " dersinin bir \U{015F}ubesi zaten sepetinizde. \U{00D6}nce \U{015F}ubesi kald\U{0131}r\U{0131}n."),
    Rule([["entire course"], [InBasket]],
         " dersinin tamam\U{0131} zaten sepetinizde. Bireysel \U{015F}ube ekleyemezsiniz."),
    Rule([["Cannot add individual sections"]],
         " dersinin tamam\U{0131} zaten eklendi\U{011F}i i\U{00E7}in \U{015F}ube ekleyemezsiniz."),
    Rule([["not found in basket", "not in your basket"]], " sepetinizde bulunamad\U{0131}"),
    Rule([["is already added"]], " zaten eklendi")]

  /** The index of the first rule from `k` on that fires. */
  function FirstFiring(message: string, rules: seq<Rule>, k: nat): (r: Option<nat>)
    ensures r.Some? ==> k <= r.value < |rules| && Fires(message, rules[r.value])
    ensures r.Some? ==> forall q :: k <= q < r.value ==> !Fires(message, rules[q])
    ensures r.None? ==> forall q :: k <= q < |rules| ==> !Fires(message, rules[q])
    decreases |rules| - k
  {
    if k >= |rules| then None
    else if Fires(message, rules[k]) then Some(k)
    else FirstFiring(message, rules, k + 1)
  }

  /** The rules applied to a non-empty message: the first rule that fires
      gives its Turkish text after the quoted name, or the message itself in
      English; with no rule firing the message is returned. */
  function ApplyRules(message: string, lang: Language, rules: seq<Rule>): (r: string)
    ensures lang == En ==> r == message
    ensures (forall q :: 0 <= q < |rules| ==> !Fires(message, rules[q])) ==> r == message
    ensures lang == Tr ==> forall q ::
      (0 <= q < |rules| && Fires(message, rules[q]) && forall q' :: 0 <= q' < q ==> !Fires(message, rules[q']))
      ==> r == FirstQuoted(message) + rules[q].text
  {
    match FirstFiring(message, rules, 0)
    case Some(q) =>
      assert forall p :: 0 <= p < |rules| && Fires(message, rules[p]) && p != q ==> q < p;
      if lang == Tr then FirstQuoted(message) + rules[q].text else message
    case None => message
  }

  /** `translateBackendError(errorMessage)` in language `lang`. An empty
      message (JavaScript's falsy string) gives `t.errorSearching`. */
  function TranslateBackendError(message: string, lang: Language): (r: string)
    ensures message == "" ==> r == ErrorSearching(lang)
    ensures message != "" && lang == En ==> r == message
    ensures message != "" && (forall q :: 0 <= q < |Rules| ==> !Fires(message, Rules[q])) ==> r == message
    ensures message != "" && lang == Tr ==> forall q ::
      (0 <= q < |Rules| && Fires(message, Rules[q]) && forall q' :: 0 <= q' < q ==> !Fires(message, Rules[q']))
      ==> r == FirstQuoted(message) + Rules[q].text
  {
    if message == "" then ErrorSearching(lang) else ApplyRules(message, lang, Rules)
  }

  /** A message containing both phrases of the first rule fires it. */
  lemma SectionRuleFires(message: string)
    requires Contains(message, InBasket) && Contains(message, "section")
    ensures Fires(message, Rule([[InBasket], ["section"]], Rules[0].text))
  {
    assert ClauseHolds(message, [InBasket]) by {
      assert [InBasket][0] == InBasket;
    }
    assert ClauseHolds(message, ["section"]) by {
      assert ["section"][0] == "section";
    }
  }

  /** Any message with both phrases is caught by the first rule, even when
      a later one fires too: for example one about an entire course that
      mentions a section. */
  lemma SectionRuleFirst(message: string)
    requires Contains(message, InBasket) && Contains(message, "section")
    ensures TranslateBackendError(message, Tr) == FirstQuoted(message) + Rules[0].text
  {
    SectionRuleFires(message);
    assert Rules[0] == Rule([[InBasket], ["section"]], Rules[0].text);
  }
}
