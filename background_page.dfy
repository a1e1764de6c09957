/** `getBackgroundPageType`: which context the calling code runs in, guessed from
    the host environment by a chain of checks where the first that fires wins.
    Everything the function reads from the browser is a field of `Host`. */
module BackgroundPage {
  import opened JsValues
  import opened Endpoints

  /** Outcome of `browser.extension.getBackgroundPage?.() === window`: it may
      throw (for instance when `browser.extension` is missing), or compare the
      background page's window with the current one. An absent
      `getBackgroundPage` yields `undefined`, which is `OtherWindow`. */
  datatype IdentityCheck = Throws | IsCurrentWindow | OtherWindow

  /** The host state the resolver reads. */
  datatype Host = Host(
    /** `typeof window !== 'undefined'` */
    hasWindow: bool,
    /** protocol, host and pathname of the current location */
    protocol: string,
    host: string,
    pathname: string,
    backgroundPage: IdentityCheck,
    /** `manifest.browser_action?.default_popup` */
    browserActionPopup: Option<string>,
    /** `manifest.action?.default_popup` */
    actionPopup: Option<string>,
    /** `manifest.options_ui?.page` */
    optionsPage: Option<string>,
    /** pathname of `new URL(browser.runtime.getURL(page))` */
    resolvedPathname: string -> string,
    /** `browser.runtime.id` */
    runtimeId: string,
    /** host of `new URL(browser.runtime.getURL(""))` */
    baseUrlHost: string)

  const MozProtocol := "moz-extension:"
  const ChromeProtocol := "chrome-extension:"
  const GeneratedBackgroundPath := "/_generated_background_page.html"

  /** Firefox's generated background document. */
  predicate IsGeneratedBackgroundPage(h: Host) {
    h.protocol == MozProtocol && h.pathname == GeneratedBackgroundPath
  }

  /** The guarded block: the identity check, then the generated-page check. Both
      share one `try`, so a throw from the first skips the second and yields no
      answer, never an exception. */
  function TryBackground(h: Host): (r: Option<RuntimeContext>)
    ensures r.Some? ==> r.value == Background
    ensures h.backgroundPage == Throws ==> r == None
    ensures r.Some? <==> h.backgroundPage == IsCurrentWindow || (h.backgroundPage == OtherWindow && IsGeneratedBackgroundPage(h))
  {
    match h.backgroundPage
    case Throws => None
    case IsCurrentWindow => Some(Background)
    case OtherWindow => if IsGeneratedBackgroundPage(h) then Some(Background) else None
  }

  /** The popup page: the legacy `browser_action` key, falling back to `action`
      when the former is missing or empty. */
  function PopupPage(h: Host): (p: Option<string>)
    ensures Truthy(h.browserActionPopup) ==> p == h.browserActionPopup
    ensures !Truthy(h.browserActionPopup) ==> p == h.actionPopup
    ensures Truthy(p) <==> Truthy(h.browserActionPopup) || Truthy(h.actionPopup)
  {
    Or(h.browserActionPopup, h.actionPopup)
  }

  /** A configured page whose resolved path is the current path. */
  predicate PageMatches(h: Host, page: Option<string>) {
    Truthy(page) && h.resolvedPathname(page.value) == h.pathname
  }

  predicate IsExtensionProtocol(h: Host) {
    h.protocol == ChromeProtocol || h.protocol == MozProtocol
  }

  /** The extension's own id as the current protocol family exposes it. */
  function ExtensionId(h: Host): string {
    if h.protocol == ChromeProtocol then h.runtimeId else h.baseUrlHost
  }

  /** The current page is one of this extension's own pages. */
  predicate IsOwnExtensionPage(h: Host) {
    IsExtensionProtocol(h) && ExtensionId(h) == h.host
  }

  /** `getBackgroundPageType`. */
  function GetBackgroundPageType(h: Host): (r: RuntimeContext)
    ensures r in {Background, Popup, Options, WebAccessible}
    ensures !h.hasWindow ==> r == Background
    ensures r == Popup ==> PageMatches(h, PopupPage(h))
    ensures r == Options ==> PageMatches(h, h.optionsPage)
    ensures r == WebAccessible ==> IsOwnExtensionPage(h)
  {
    if !h.hasWindow then Background
    else match TryBackground(h)
      case Some(context) => context
      case None =>
        if PageMatches(h, PopupPage(h)) then Popup
        else if PageMatches(h, h.optionsPage) then Options
        else if IsOwnExtensionPage(h) then WebAccessible
        else Background
  }

  // ---------------------------------------------------------------------------
  // The priority order, one label at a time

  /** The checks that come before the manifest: no window, or the guarded block
      found the background page. */
  predicate DecidedBeforeManifest(h: Host) {
    !h.hasWindow || TryBackground(h).Some?
  }

  lemma BackgroundIff(h: Host)
    ensures GetBackgroundPageType(h) == Background <==>
      DecidedBeforeManifest(h)
      || (!PageMatches(h, PopupPage(h)) && !PageMatches(h, h.optionsPage) && !IsOwnExtensionPage(h))
  {
  }

  lemma PopupIff(h: Host)
    ensures GetBackgroundPageType(h) == Popup <==>
      !DecidedBeforeManifest(h) && PageMatches(h, PopupPage(h))
  {
  }

  /** Options only when the popup does not match: popup wins a tie. */
  lemma OptionsIff(h: Host)
    ensures GetBackgroundPageType(h) == Options <==>
      !DecidedBeforeManifest(h) && !PageMatches(h, PopupPage(h)) && PageMatches(h, h.optionsPage)
  {
  }

  lemma WebAccessibleIff(h: Host)
    ensures GetBackgroundPageType(h) == WebAccessible <==>
      !DecidedBeforeManifest(h) && !PageMatches(h, PopupPage(h)) && !PageMatches(h, h.optionsPage)
      && IsOwnExtensionPage(h)
  {
  }

  // ---------------------------------------------------------------------------
  // Scenarios and consequences

  /** The Firefox generated background page is recognised without consulting
      the manifest, unless the identity check threw. */
  lemma GeneratedPageIsBackground(h: Host)
    requires h.hasWindow && h.backgroundPage != Throws && IsGeneratedBackgroundPage(h)
    ensures GetBackgroundPageType(h) == Background
  {
  }

  /** A throwing identity check is absorbed: away from the generated background
      page the answer is the one a check that found another window gives. */
  lemma ThrowIsAbsorbed(h: Host)
    requires h.backgroundPage == Throws && !IsGeneratedBackgroundPage(h)
    ensures GetBackgroundPageType(h) == GetBackgroundPageType(h.(backgroundPage := OtherWindow))
  {
  }

  /** Because both checks share one `try`, a throw also skips the generated-page
      check: on Firefox's generated background page, with a throwing identity
      check and the extension's own host, the answer is `web_accessible`. */
  lemma ThrowSkipsGeneratedPageCheck(h: Host)
    requires h.hasWindow && h.backgroundPage == Throws && IsGeneratedBackgroundPage(h)
    requires !PageMatches(h, PopupPage(h)) && !PageMatches(h, h.optionsPage)
    requires h.baseUrlHost == h.host
    ensures GetBackgroundPageType(h) == WebAccessible
    ensures GetBackgroundPageType(h.(backgroundPage := OtherWindow)) == Background
  {
  }

  /** When the popup path matches, the options page does not matter. */
  lemma PopupBeatsOptions(h: Host, options: Option<string>)
    requires !DecidedBeforeManifest(h) && PageMatches(h, PopupPage(h))
    ensures GetBackgroundPageType(h) == Popup
    ensures GetBackgroundPageType(h.(optionsPage := options)) == Popup
  {
  }

  /** The `action` key is consulted only when `browser_action` gives no page. */
  lemma LegacyPopupKeyWins(h: Host, action: Option<string>)
    requires Truthy(h.browserActionPopup)
    ensures GetBackgroundPageType(h.(actionPopup := action)) == GetBackgroundPageType(h)
  {
  }

  /** `web_accessible` needs an extension protocol and the protocol family's own
      id as host: `runtime.id` on Chrome, the base URL's host on Firefox. */
  lemma WebAccessibleNeedsOwnHost(h: Host)
    requires GetBackgroundPageType(h) == WebAccessible
    ensures h.protocol == ChromeProtocol ==> h.host == h.runtimeId
    ensures h.protocol == MozProtocol ==> h.host == h.baseUrlHost
    ensures h.protocol in {ChromeProtocol, MozProtocol}
  {
  }

  /** The label is itself a valid endpoint token naming that context, and it is
      internal exactly for `background` and `web_accessible`. */
  lemma LabelIsEndpoint(h: Host)
    ensures ParseEndpoint(Name(GetBackgroundPageType(h))) == Endpoint(Some(GetBackgroundPageType(h)), NaN, None)
    ensures IsInternalEndpoint(ParseEndpoint(Name(GetBackgroundPageType(h))))
        <==> GetBackgroundPageType(h) in {Background, WebAccessible}
  {
    ParseBare(GetBackgroundPageType(h));
  }
}
