/**
 * The cookie consent banner: it decides on mount whether a stored consent is
 * still valid, lets the visitor accept all, reject all or save custom
 * preferences, persists the choice with a timestamp, and loads the Google
 * Analytics 4 tag at most once.
 *
 * Timestamps are abstract integers; "one year before now" is computed by the
 * caller (the calendar arithmetic of `setFullYear` is not modelled).
 */
module CookieConsent {

  import opened Wrappers

  datatype Preferences = Preferences(necessary: bool, analytics: bool, marketing: bool)

  /** The keys of the preference record that `handlePreferenceChange` accepts. */
  datatype PreferenceKind = Necessary | Analytics | Marketing

  /** Initial state of the dialog, also the record that reject-all saves. */
  const DefaultPreferences := Preferences(true, false, false)
  const AllAccepted := Preferences(true, true, true)

  const GaMeasurementId := "G-XXXXXXXXXX"
  const GtagScriptSrc := "https://www.googletagmanager.com/gtag/js?id=" + GaMeasurementId

  /** An argument list that `gtag` pushes onto `window.dataLayer`. */
  datatype GtagCall = Js(time: int) | Config(measurementId: string, anonymizeIp: bool, cookieFlags: string)

  /** What `initializeGA4` reads and writes on `window` and `document.head`. */
  datatype Window = Window(gtagDefined: bool, headScripts: seq<string>, dataLayer: seq<GtagCall>)

  /**
   * The mount decision: the banner reappears when either storage key is
   * missing, or the stored date is strictly earlier than one year ago.
   */
  function ShowBannerOnMount(consent: Option<Preferences>, consentDate: Option<int>, oneYearAgo: int): (show: bool)
    ensures show <==> consent.None? || consentDate.None? || consentDate.value < oneYearAgo
  {
    if consent.None? || consentDate.None? then true
    else consentDate.value < oneYearAgo
  }

  /** A consent dated exactly one year ago is still valid: the comparison is strict. */
  lemma ConsentExactlyOneYearOldIsValid(prefs: Preferences, oneYearAgo: int)
    ensures !ShowBannerOnMount(Some(prefs), Some(oneYearAgo), oneYearAgo)
    ensures ShowBannerOnMount(Some(prefs), Some(oneYearAgo - 1), oneYearAgo)
  {
  }

  /** `initializeGA4`: inject the tag script and define `gtag` only when `gtag` is not yet defined. */
  function InitializeGa4(w: Window, now: int): (w': Window)
    ensures w.gtagDefined ==> w' == w
    ensures !w.gtagDefined ==>
      w'.gtagDefined &&
      w'.headScripts == w.headScripts + [GtagScriptSrc] &&
      w'.dataLayer == w.dataLayer + [Js(now), Config(GaMeasurementId, true, "SameSite=None;Secure")]
  {
    if w.gtagDefined then w
    else
      var head := w.headScripts + [GtagScriptSrc];
      var layer := w.dataLayer;
      var calls := [Js(now), Config(GaMeasurementId, true, "SameSite=None;Secure")];
      Window(true, head, layer + calls)
  }

  /** Calling the initialiser any number of times, at the given instants. */
  function InitializeGa4Repeatedly(w: Window, times: seq<int>): Window
    decreases |times|
  {
    if times == [] then w else InitializeGa4Repeatedly(InitializeGa4(w, times[0]), times[1..])
  }

  /** However often it is called, the initialiser appends at most one script. */
  lemma {:induction false} AtMostOneScript(w: Window, times: seq<int>)
    ensures var w' := InitializeGa4Repeatedly(w, times);
      |w'.headScripts| <= |w.headScripts| + 1 &&
      (times != [] ==> w'.gtagDefined) &&
      (w.gtagDefined ==> w' == w)
    decreases |times|
  {
    if times != [] {
      var w1 := InitializeGa4(w, times[0]);
      AtMostOneScript(w1, times[1..]);
    }
  }

  /** `handlePreferenceChange`: `necessary` cannot be switched off; the other two flip. */
  function TogglePreference(prefs: Preferences, kind: PreferenceKind): (r: Preferences)
    ensures r.necessary == prefs.necessary
    ensures r.analytics == (if kind == Analytics then !prefs.analytics else prefs.analytics)
    ensures r.marketing == (if kind == Marketing then !prefs.marketing else prefs.marketing)
  {
    match kind
    case Necessary => prefs
    case Analytics => prefs.(analytics := !prefs.analytics)
    case Marketing => prefs.(marketing := !prefs.marketing)
  }

  lemma TogglePreferenceTwice(prefs: Preferences, kind: PreferenceKind)
    ensures TogglePreference(TogglePreference(prefs, kind), kind) == prefs
  {
  }

  /** The component's state together with the two localStorage keys and the page's window. */
  class ConsentGate {
    // localStorage 'cookie-consent' and 'cookie-consent-date'
    var consent: Option<Preferences>
    var consentDate: Option<int>
    // React state
    var showBanner: bool
    var showPreferences: bool
    var preferences: Preferences
    // window.gtag, document.head scripts, window.dataLayer
    var window: Window

    /** Records this component writes always keep `necessary` on. */
    ghost predicate NecessaryKept()
      reads this
    {
      preferences.necessary && (consent.Some? ==> consent.value.necessary)
    }

    /** Whether `initializeGA4` has ever run its body. */
    predicate AnalyticsLoaded()
      reads this
    {
      window.gtagDefined
    }

    /** The render: nothing at all unless the banner is shown; the dialog sits inside it. */
    predicate DialogRendered()
      reads this
    {
      showBanner && showPreferences
    }

    constructor (storedConsent: Option<Preferences>, storedDate: Option<int>, w: Window)
      ensures consent == storedConsent && consentDate == storedDate && window == w
      ensures !showBanner && !showPreferences && preferences == DefaultPreferences
      ensures (storedConsent.Some? ==> storedConsent.value.necessary) ==> NecessaryKept()
    {
      consent := storedConsent;
      consentDate := storedDate;
      showBanner := false;
      showPreferences := false;
      preferences := DefaultPreferences;
      window := w;
    }

    method InitializeGa4Now(now: int)
      modifies this
      ensures window == InitializeGa4(old(window), now)
      ensures consent == old(consent) && consentDate == old(consentDate)
      ensures showBanner == old(showBanner) && showPreferences == old(showPreferences)
      ensures preferences == old(preferences)
    {
      if !window.gtagDefined {
        var head := window.headScripts + [GtagScriptSrc];
        window := window.(headScripts := head);
        window := window.(gtagDefined := true);
        window := window.(dataLayer := window.dataLayer + [Js(now)]);
        window := window.(dataLayer := window.dataLayer + [Config(GaMeasurementId, true, "SameSite=None;Secure")]);
      }
    }

    /**
     * The mount effect, which runs once on the initial state: show the banner,
     * or adopt the stored choice and load analytics if it allows.
     */
    method Mount(oneYearAgo: int, now: int)
      requires !showBanner
      modifies this
      ensures consent == old(consent) && consentDate == old(consentDate)
      ensures showBanner == ShowBannerOnMount(consent, consentDate, oneYearAgo)
      ensures showPreferences == old(showPreferences)
      ensures showBanner ==> preferences == old(preferences) && window == old(window)
      ensures !showBanner ==> preferences == consent.value
      ensures !showBanner ==> window == if consent.value.analytics then InitializeGa4(old(window), now) else old(window)
      ensures old(NecessaryKept()) ==> NecessaryKept()
    {
      if consent.None? || consentDate.None? {
        showBanner := true;
      } else if consentDate.value < oneYearAgo {
        showBanner := true;
      } else {
        var saved := consent.value;
        preferences := saved;
        if saved.analytics {
          InitializeGa4Now(now);
        }
      }
    }

    /** `saveConsent`: write both storage keys and adopt the record. */
    method SaveConsent(prefs: Preferences, now: int)
      modifies this
      ensures consent == Some(prefs) && consentDate == Some(now) && preferences == prefs
      ensures showBanner == old(showBanner) && showPreferences == old(showPreferences) && window == old(window)
    {
      consent := Some(prefs);
      consentDate := Some(now);
      preferences := prefs;
    }

    method AcceptAll(now: int)
      modifies this
      ensures consent == Some(AllAccepted) && consentDate == Some(now) && preferences == AllAccepted
      ensures window == InitializeGa4(old(window), now) && AnalyticsLoaded()
      ensures !showBanner && showPreferences == old(showPreferences)
      ensures !DialogRendered()
      ensures old(NecessaryKept()) ==> NecessaryKept()
    {
      SaveConsent(AllAccepted, now);
      InitializeGa4Now(now);
      showBanner := false;
    }

    /** Reject-all never calls the initialiser, and does not unload a tag that is already there. */
    method RejectAll(now: int)
      modifies this
      ensures consent == Some(DefaultPreferences) && consentDate == Some(now) && preferences == DefaultPreferences
      ensures window == old(window)
      ensures !showBanner && showPreferences == old(showPreferences)
      ensures !DialogRendered()
      ensures old(NecessaryKept()) ==> NecessaryKept()
    {
      SaveConsent(DefaultPreferences, now);
      showBanner := false;
    }

    /** Save the dialog's current choice; analytics is initialised exactly when it is allowed. */
    method SavePreferences(now: int)
      modifies this
      ensures consent == Some(old(preferences)) && consentDate == Some(now) && preferences == old(preferences)
      ensures window == if old(preferences).analytics then InitializeGa4(old(window), now) else old(window)
      ensures !showBanner && !showPreferences
      ensures !DialogRendered()
      ensures old(NecessaryKept()) ==> NecessaryKept()
    {
      SaveConsent(preferences, now);
      if preferences.analytics {
        InitializeGa4Now(now);
      }
      showBanner := false;
      showPreferences := false;
    }

    method PreferenceChange(kind: PreferenceKind)
      modifies this
      ensures preferences == TogglePreference(old(preferences), kind)
      ensures consent == old(consent) && consentDate == old(consentDate) && window == old(window)
      ensures showBanner == old(showBanner) && showPreferences == old(showPreferences)
      ensures old(NecessaryKept()) ==> NecessaryKept()
    {
      if kind == Necessary {
        return;
      }
      preferences := TogglePreference(preferences, kind);
    }

    /** The "Customize" button. */
    method OpenPreferences()
      modifies this
      ensures showPreferences
      ensures DialogRendered() == old(showBanner)
      ensures consent == old(consent) && consentDate == old(consentDate) && window == old(window)
      ensures showBanner == old(showBanner) && preferences == old(preferences)
    {
      showPreferences := true;
    }

    /** The overlay, the close icon and the "Cancel" button: nothing is saved. */
    method ClosePreferences()
      modifies this
      ensures !showPreferences
      ensures !DialogRendered()
      ensures consent == old(consent) && consentDate == old(consentDate) && window == old(window)
      ensures showBanner == old(showBanner) && preferences == old(preferences)
    {
      showPreferences := false;
    }
  }
}
