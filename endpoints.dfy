/** Endpoint tokens of the message bridge: `<context>(@<tabId>(.<frameId>)?)?`.
    The anchored pattern of src/utils.ts is modelled as an explicit matcher that
    tries the seven context alternatives in the pattern's order, and is proved
    to accept exactly the tokens of the grammar, with unique capture groups. */
module Endpoints {
  import opened JsValues
  import Decimal

  /** The seven execution contexts of an extension. */
  datatype RuntimeContext = Background | Devtools | Popup | Options | ContentScript | Window | WebAccessible

  /** The token each context is written as. */
  function Name(c: RuntimeContext): string {
    match c
    case Background => "background"
    case Devtools => "devtools"
    case Popup => "popup"
    case Options => "options"
    case ContentScript => "content-script"
    case Window => "window"
    case WebAccessible => "web_accessible"
  }

  /** The alternatives of the pattern's first group, in the order they are tried. */
  const Alternatives: seq<RuntimeContext> :=
    [Background, Devtools, Popup, Options, ContentScript, Window, WebAccessible]

  /** The parsed endpoint: `context` is `undefined` on a failed match, `tabId` is
      `NaN` when no tab part was captured, `frameId` is `undefined` when no frame
      part was captured. */
  datatype Endpoint = Endpoint(context: Option<RuntimeContext>, tabId: JsNumber, frameId: Option<nat>)

  /** What a failed match degrades to. */
  const Unmatched := Endpoint(None, NaN, None)

  /** The three capture groups of a successful match. */
  datatype Groups = Groups(context: RuntimeContext, tabId: Option<string>, frameId: Option<string>)

  // ---------------------------------------------------------------------------
  // The grammar, stated declaratively

  /** The text the optional `@tabId(.frameId)` part stands for. */
  function SuffixText(tabId: Option<string>, frameId: Option<string>): string {
    match tabId
    case None => ""
    case Some(t) => "@" + t + (match frameId case None => "" case Some(f) => "." + f)
  }

  predicate WellFormedSuffix(tabId: Option<string>, frameId: Option<string>) {
    && (tabId.None? ==> frameId.None?)
    && (tabId.Some? ==> Decimal.IsDigits(tabId.value))
    && (frameId.Some? ==> Decimal.IsDigits(frameId.value))
  }

  /** Groups that the pattern can produce: digit groups, a frame only after a
      tab, and `background` never followed by anything. */
  predicate WellFormed(g: Groups) {
    && WellFormedSuffix(g.tabId, g.frameId)
    && (g.context == Background ==> g.tabId.None?)
  }

  /** The token a set of groups spells. */
  function Token(g: Groups): string {
    Name(g.context) + SuffixText(g.tabId, g.frameId)
  }

  /** `s` belongs to the endpoint grammar. */
  ghost predicate InGrammar(s: string) {
    exists g :: WellFormed(g) && Token(g) == s
  }

  // ---------------------------------------------------------------------------
  // The matcher

  /** Length of the longest prefix of `s` made of digits. */
  function DigitRun(s: string): (k: nat)
    ensures k <= |s|
    ensures forall i :: 0 <= i < k ==> Decimal.IsDigit(s[i])
    ensures k < |s| ==> !Decimal.IsDigit(s[k])
  {
    if s == [] || !Decimal.IsDigit(s[0]) then 0 else 1 + DigitRun(s[1..])
  }

  /** `(?:@(\d+)(?:\.(\d+))?)?$` applied to what follows the context name. */
  function MatchSuffix(rest: string): (r: Option<(Option<string>, Option<string>)>)
    ensures r.Some? ==> WellFormedSuffix(r.value.0, r.value.1) && SuffixText(r.value.0, r.value.1) == rest
  {
    if rest == [] then Some((None, None))
    else if rest[0] != '@' then None
    else
      var t := rest[1..];
      var k := DigitRun(t);
      if k == 0 then None
      else if k == |t| then
        assert rest == "@" + t;
        Some((Some(t), None))
      else if t[k] == '.' && Decimal.IsDigits(t[k + 1..]) then
        assert rest == "@" + t[..k] + "." + t[k + 1..];
        Some((Some(t[..k]), Some(t[k + 1..])))
      else None
  }

  /** The pattern with the alternatives from index `i` on: the first alternative
      that is a prefix of `s` and whose suffix matches wins. `background$` only
      matches when the name is the whole string. */
  function MatchFrom(s: string, i: nat): (r: Option<Groups>)
    requires i <= |Alternatives|
    ensures r.Some? ==> WellFormed(r.value) && Token(r.value) == s
    decreases |Alternatives| - i
  {
    if i == |Alternatives| then None
    else
      var c := Alternatives[i];
      var name := Name(c);
      if name <= s && (c == Background ==> |s| == |name|) then
        match MatchSuffix(s[|name|..])
        case Some((tabId, frameId)) =>
          assert s == name + s[|name|..];
          Some(Groups(c, tabId, frameId))
        case None => MatchFrom(s, i + 1)
      else MatchFrom(s, i + 1)
  }

  /** `endpoint.match(ENDPOINT_RE)`: the capture groups, or no match. */
  function MatchEndpoint(s: string): (r: Option<Groups>)
    ensures r.Some? ==> WellFormed(r.value) && Token(r.value) == s
  {
    MatchFrom(s, 0)
  }

  /** `parseEndpoint`: never fails; a string outside the grammar yields an endpoint
      whose three fields are `undefined`, `NaN` and `undefined`. */
  function ParseEndpoint(s: string): (e: Endpoint)
    ensures e.context.None? ==> e == Unmatched
    ensures e.frameId.Some? ==> e.tabId.Finite?
    ensures e.context == Some(Background) ==> e.tabId == NaN && e.frameId == None
  {
    var groups := MatchEndpoint(s);
    var context := if groups.Some? then Some(groups.value.context) else None;
    var tabId := if groups.Some? then groups.value.tabId else None;
    var frameId := if groups.Some? then groups.value.frameId else None;
    Endpoint(context, UnaryPlus(tabId), if Truthy(frameId) then Some(Decimal.Value(frameId.value)) else None)
  }

  /** The names `isInternalEndpoint` looks the context up in. */
  const InternalNames: seq<string> := ["content-script", "background", "devtools", "web_accessible"]

  /** `isInternalEndpoint`: the context's name is in the internal list; `undefined`
      is in no list. */
  function IsInternalEndpoint(e: Endpoint): (b: bool)
    ensures b <==> e.context in {Some(ContentScript), Some(Background), Some(Devtools), Some(WebAccessible)}
  {
    e.context.Some? && Name(e.context.value) in InternalNames
  }

  // ---------------------------------------------------------------------------
  // Properties of the matcher

  /** Position of a context among the alternatives. */
  function IndexOf(c: RuntimeContext): (i: nat)
    ensures i < |Alternatives| && Alternatives[i] == c
    ensures forall j :: 0 <= j < |Alternatives| && Alternatives[j] == c ==> j == i
  {
    match c
    case Background => 0
    case Devtools => 1
    case Popup => 2
    case Options => 3
    case ContentScript => 4
    case Window => 5
    case WebAccessible => 6
  }

  /** No context name is a prefix of another name followed by anything: the
      first two characters already tell the seven names apart. */
  lemma NamesPrefixFree(c: RuntimeContext, d: RuntimeContext, rest: string)
    ensures Name(c) <= Name(d) + rest ==> c == d
  {
    var n, m := Name(c), Name(d) + rest;
    assert m[0] == Name(d)[0] && m[1] == Name(d)[1];
    if n <= m {
      assert n[0] == m[0] && n[1] == m[1];
    }
  }

  /** Every well-formed suffix is matched, with the groups it was built from. */
  lemma MatchSuffixComplete(tabId: Option<string>, frameId: Option<string>)
    requires WellFormedSuffix(tabId, frameId)
    ensures MatchSuffix(SuffixText(tabId, frameId)) == Some((tabId, frameId))
  {
    var rest := SuffixText(tabId, frameId);
    if tabId.Some? {
      var tab := tabId.value;
      var t := rest[1..];
      var k := DigitRun(t);
      if frameId.None? {
        assert t == tab;
      } else {
        var frame := frameId.value;
        assert t == tab + "." + frame;
        assert forall i :: 0 <= i < |tab| ==> Decimal.IsDigit(t[i]);
        assert !Decimal.IsDigit(t[|tab|]);
        assert k == |tab|;
        assert t[..k] == tab;
        assert t[k + 1..] == frame;
      }
    }
  }

  lemma {:induction false} MatchFromFinds(g: Groups, i: nat)
    requires WellFormed(g)
    requires i <= IndexOf(g.context)
    ensures MatchFrom(Token(g), i) == Some(g)
    decreases IndexOf(g.context) - i
  {
    var s := Token(g);
    var c := Alternatives[i];
    if i == IndexOf(g.context) {
      assert Name(c) <= s;
      assert s[|Name(c)|..] == SuffixText(g.tabId, g.frameId);
      MatchSuffixComplete(g.tabId, g.frameId);
    } else {
      NamesPrefixFree(c, g.context, SuffixText(g.tabId, g.frameId));
      MatchFromFinds(g, i + 1);
    }
  }

  /** Completeness: every token of the grammar matches, and the capture groups are
      exactly the parts it was built from. */
  lemma MatchComplete(g: Groups)
    requires WellFormed(g)
    ensures MatchEndpoint(Token(g)) == Some(g)
  {
    MatchFromFinds(g, 0);
  }

  /** The pattern accepts exactly the strings of the grammar. */
  lemma MatchIffInGrammar(s: string)
    ensures MatchEndpoint(s).Some? <==> InGrammar(s)
  {
    if InGrammar(s) {
      var g :| WellFormed(g) && Token(g) == s;
      MatchComplete(g);
    }
  }

  /** The grammar is unambiguous: a token determines its groups. */
  lemma TokenInjective(g1: Groups, g2: Groups)
    requires WellFormed(g1) && WellFormed(g2)
    requires Token(g1) == Token(g2)
    ensures g1 == g2
  {
    MatchComplete(g1);
    MatchComplete(g2);
  }

  // ---------------------------------------------------------------------------
  // Properties of parseEndpoint

  /** `ctx@n.m` gives the context, the value of `n` and the value of `m`. */
  lemma ParseTabAndFrame(c: RuntimeContext, tab: string, frame: string)
    requires c != Background
    requires Decimal.IsDigits(tab) && Decimal.IsDigits(frame)
    ensures ParseEndpoint(Name(c) + "@" + tab + "." + frame)
         == Endpoint(Some(c), Finite(Decimal.Value(tab)), Some(Decimal.Value(frame)))
  {
    var g := Groups(c, Some(tab), Some(frame));
    assert Token(g) == Name(c) + "@" + tab + "." + frame;
    MatchComplete(g);
  }

  /** `ctx@n` gives the value of `n` and leaves the frame `undefined`. */
  lemma ParseTabOnly(c: RuntimeContext, tab: string)
    requires c != Background
    requires Decimal.IsDigits(tab)
    ensures ParseEndpoint(Name(c) + "@" + tab) == Endpoint(Some(c), Finite(Decimal.Value(tab)), None)
  {
    var g := Groups(c, Some(tab), None);
    assert Token(g) == Name(c) + "@" + tab;
    MatchComplete(g);
  }

  /** A bare context name, `background` included, gives `NaN` and `undefined`. */
  lemma ParseBare(c: RuntimeContext)
    ensures ParseEndpoint(Name(c)) == Endpoint(Some(c), NaN, None)
  {
    var g := Groups(c, None, None);
    assert Token(g) == Name(c);
    MatchComplete(g);
  }

  /** Tab and frame numbers written in decimal are read back unchanged. */
  lemma ParseNumbers(c: RuntimeContext, tabId: nat, frameId: nat)
    requires c != Background
    ensures ParseEndpoint(Name(c) + "@" + Decimal.Show(tabId)) == Endpoint(Some(c), Finite(tabId), None)
    ensures ParseEndpoint(Name(c) + "@" + Decimal.Show(tabId) + "." + Decimal.Show(frameId))
         == Endpoint(Some(c), Finite(tabId), Some(frameId))
  {
    ParseTabOnly(c, Decimal.Show(tabId));
    ParseTabAndFrame(c, Decimal.Show(tabId), Decimal.Show(frameId));
  }

  /** `background` is anchored: followed by anything at all it does not match,
      so `background@1`, `background@1.2` and `backgroundx` are unmatched. */
  lemma BackgroundOnlyExact(rest: string)
    requires rest != ""
    ensures ParseEndpoint("background" + rest) == Unmatched
  {
    var s := "background" + rest;
    var r := MatchEndpoint(s);
    var g := if r.Some? then r.value else Groups(Background, None, None);
    NamesPrefixFree(g.context, Background, rest);
    assert r.Some? ==> g.context == Background && Token(g) == "background";
  }

  /** A string outside the grammar parses to `undefined`, `NaN`, `undefined`; one
      inside it keeps its context. */
  lemma ParseFailsIffOutsideGrammar(s: string)
    ensures ParseEndpoint(s) == Unmatched <==> !InGrammar(s)
    ensures InGrammar(s) ==> ParseEndpoint(s).context.Some?
  {
    MatchIffInGrammar(s);
  }

  /** Every context name has at least five characters and starts with one of
      `b`, `d`, `p`, `o`, `c`, `w`. */
  lemma NameShape(c: RuntimeContext)
    ensures |Name(c)| >= 5 && Name(c)[0] in "bdpocw"
  {
  }

  /** A context name followed by text the suffix part rejects is unmatched. */
  lemma RejectedAfterName(c: RuntimeContext, rest: string)
    requires MatchSuffix(rest) == None
    ensures ParseEndpoint(Name(c) + rest) == Unmatched
  {
    var s := Name(c) + rest;
    var r := MatchEndpoint(s);
    var g := if r.Some? then r.value else Groups(c, None, None);
    NamesPrefixFree(g.context, c, rest);
    assert r.Some? ==> g.context == c && s[|Name(c)|..] == rest;
    assert r.Some? ==> SuffixText(g.tabId, g.frameId) == rest;
    var tabId, frameId := if r.Some? then g.tabId else None, if r.Some? then g.frameId else None;
    MatchSuffixComplete(tabId, frameId);
    assert r.Some? ==> MatchSuffix(rest) == Some((tabId, frameId));
  }

  /** A string too short for a context name, or starting with a letter no name
      starts with, is unmatched. */
  lemma RejectedWithoutName(s: string)
    requires |s| < 5 || s[0] !in "bdpocw"
    ensures ParseEndpoint(s) == Unmatched
  {
    var r := MatchEndpoint(s);
    var g := if r.Some? then r.value else Groups(Popup, None, None);
    NameShape(g.context);
    var t := Token(g);
    assert t[0] == Name(g.context)[0];
    assert r.Some? ==> t == s;
  }

  /** Malformed tokens: empty, unknown context, `@` with no digits, a dot with no
      frame digits, non-digit tab. */
  lemma ParseRejects()
    ensures ParseEndpoint("") == Unmatched
    ensures ParseEndpoint("foo") == Unmatched
    ensures ParseEndpoint("popup@") == Unmatched
    ensures ParseEndpoint("popup@1.") == Unmatched
    ensures ParseEndpoint("popup@a") == Unmatched
  {
    RejectedWithoutName("");
    RejectedWithoutName("foo");
    assert MatchSuffix("@") == None;
    assert MatchSuffix("@1.") == None by {
      assert DigitRun("1.") == 1;
    }
    assert MatchSuffix("@a") == None;
    RejectedAfterName(Popup, "@");
    RejectedAfterName(Popup, "@1.");
    RejectedAfterName(Popup, "@a");
    assert Name(Popup) + "@" == "popup@";
    assert Name(Popup) + "@1." == "popup@1.";
    assert Name(Popup) + "@a" == "popup@a";
  }

  /** Leading zeros are read as decimal: `ctx@0n` has the same tab as `ctx@n`. */
  lemma ParseLeadingZero(c: RuntimeContext, tab: string)
    requires c != Background
    requires Decimal.IsDigits(tab)
    ensures ParseEndpoint(Name(c) + "@0" + tab).tabId == ParseEndpoint(Name(c) + "@" + tab).tabId
  {
    assert Name(c) + "@0" + tab == Name(c) + "@" + (['0'] + tab);
    ParseTabOnly(c, ['0'] + tab);
    ParseTabOnly(c, tab);
    Decimal.LeadingZeroIgnored(tab);
  }

  // ---------------------------------------------------------------------------
  // Properties of isInternalEndpoint

  /** A failed parse is never internal. */
  lemma UnmatchedNotInternal(s: string)
    requires !InGrammar(s)
    ensures !IsInternalEndpoint(ParseEndpoint(s))
  {
    ParseFailsIffOutsideGrammar(s);
  }

  /** A token of the grammar is internal exactly when its context is one of the
      four internal ones, whatever its tab and frame parts. */
  lemma TokenInternalIff(g: Groups)
    requires WellFormed(g)
    ensures IsInternalEndpoint(ParseEndpoint(Token(g))) <==> g.context in {ContentScript, Background, Devtools, WebAccessible}
  {
    MatchComplete(g);
  }
}
