/**
 * The stored timezone preference: the value read from storage is normalised
 * to either the system marker or a zone the platform accepts, and the zone
 * in effect is the stored one when valid, the browser's otherwise. What the
 * platform accepts (`Intl.DateTimeFormat` not throwing), what it resolves as
 * the browser zone, and what `JSON.parse` decodes are given as parameters.
 */
module TimezonePreference {
  import opened Wrappers
  import opened JsText

  const SYSTEM_VALUE: string := "__system__"
  const DEFAULT_TIMEZONE: string := "UTC"

  /** `isValidIanaTimeZone`: blank text is refused before the platform is asked. */
  predicate IsValidIanaTimeZone(value: string, accepts: string -> bool) {
    Trim(value) != [] && accepts(value)
  }

  /**
   * `getBrowserTimeZone`: the zone the platform resolves (`None` when that
   * call throws), if it is non-empty and valid; otherwise UTC.
   */
  function GetBrowserTimeZone(resolved: Option<string>, accepts: string -> bool): (r: string)
    ensures resolved.Some? && resolved.value != [] && IsValidIanaTimeZone(resolved.value, accepts) ==> r == resolved.value
    ensures !(resolved.Some? && resolved.value != [] && IsValidIanaTimeZone(resolved.value, accepts)) ==> r == DEFAULT_TIMEZONE
  {
    if resolved.Some? && resolved.value != [] && IsValidIanaTimeZone(resolved.value, accepts) then resolved.value
    else DEFAULT_TIMEZONE
  }

  /** `resolveEffectiveTimezone`: the system marker and invalid zones mean the browser's zone. */
  function ResolveEffectiveTimezone(stored: string, resolved: Option<string>, accepts: string -> bool): string {
    if stored == SYSTEM_VALUE then GetBrowserTimeZone(resolved, accepts)
    else if IsValidIanaTimeZone(stored, accepts) then stored
    else GetBrowserTimeZone(resolved, accepts)
  }

  /**
   * `normalizeStoredTimezoneValue`: `null`, `undefined`, the empty string and
   * the marker give the marker; text that `JSON.parse` decodes to a string
   * (`parseJsonString`) is replaced by that string; the result is the marker
   * or a valid zone.
   */
  function NormalizeStoredTimezoneValue(value: Option<string>, parseJsonString: string -> Option<string>,
                                        accepts: string -> bool): (r: string)
    ensures r == SYSTEM_VALUE || IsValidIanaTimeZone(r, accepts)
  {
    if value.None? || value.value == [] || value.value == SYSTEM_VALUE then SYSTEM_VALUE
    else
      var parsed := parseJsonString(value.value);
      var decoded := if parsed.Some? then parsed.value else value.value;
      if decoded == SYSTEM_VALUE then SYSTEM_VALUE
      else if IsValidIanaTimeZone(decoded, accepts) then decoded
      else SYSTEM_VALUE
  }

  // ---------------------------------------------------------------------
  // Properties
  // ---------------------------------------------------------------------

  /** Blank or white-space-only text is never a valid zone, whatever the platform says. */
  lemma BlankNeverValid(value: string, accepts: string -> bool)
    requires AllWs(value)
    ensures !IsValidIanaTimeZone(value, accepts)
  {
    TrimEmptyIff(value);
  }

  /** The browser zone is always usable: valid, or the UTC fallback. */
  lemma BrowserZoneUsable(resolved: Option<string>, accepts: string -> bool)
    ensures var z := GetBrowserTimeZone(resolved, accepts);
            z == DEFAULT_TIMEZONE || IsValidIanaTimeZone(z, accepts)
    ensures resolved == Some("") ==> GetBrowserTimeZone(resolved, accepts) == "UTC"
  {
  }

  /** Missing, empty and marker values all normalise to the marker. */
  lemma MissingIsSystem(parseJsonString: string -> Option<string>, accepts: string -> bool)
    ensures NormalizeStoredTimezoneValue(None, parseJsonString, accepts) == SYSTEM_VALUE
    ensures NormalizeStoredTimezoneValue(Some(""), parseJsonString, accepts) == SYSTEM_VALUE
    ensures NormalizeStoredTimezoneValue(Some(SYSTEM_VALUE), parseJsonString, accepts) == SYSTEM_VALUE
  {
  }

  /**
   * A JSON-encoded string is decoded before it is checked: a decoded marker
   * gives the marker, a decoded valid zone is kept, anything else gives the marker.
   */
  lemma JsonDecodedFirst(value: string, decoded: string, parseJsonString: string -> Option<string>, accepts: string -> bool)
    requires value != [] && value != SYSTEM_VALUE && parseJsonString(value) == Some(decoded)
    ensures NormalizeStoredTimezoneValue(Some(value), parseJsonString, accepts) ==
            if decoded != SYSTEM_VALUE && IsValidIanaTimeZone(decoded, accepts) then decoded else SYSTEM_VALUE
  {
  }

  /** Text that is not a JSON string is checked as it is: kept when valid, the marker otherwise. */
  lemma RawValueChecked(value: string, parseJsonString: string -> Option<string>, accepts: string -> bool)
    requires value != [] && parseJsonString(value).None?
    ensures NormalizeStoredTimezoneValue(Some(value), parseJsonString, accepts) ==
            if value != SYSTEM_VALUE && IsValidIanaTimeZone(value, accepts) then value else SYSTEM_VALUE
  {
  }

  /**
   * The marker and invalid zones resolve to the browser zone, a valid zone to
   * itself; so the zone in effect is always valid or UTC.
   */
  lemma ResolveCases(stored: string, resolved: Option<string>, accepts: string -> bool)
    ensures stored == SYSTEM_VALUE ==> ResolveEffectiveTimezone(stored, resolved, accepts) == GetBrowserTimeZone(resolved, accepts)
    ensures stored != SYSTEM_VALUE && IsValidIanaTimeZone(stored, accepts) ==> ResolveEffectiveTimezone(stored, resolved, accepts) == stored
    ensures !IsValidIanaTimeZone(stored, accepts) ==> ResolveEffectiveTimezone(stored, resolved, accepts) == GetBrowserTimeZone(resolved, accepts)
    ensures var z := ResolveEffectiveTimezone(stored, resolved, accepts);
            z == DEFAULT_TIMEZONE || IsValidIanaTimeZone(z, accepts)
  {
  }

  /** A stored zone the platform refuses is normalised to the marker and resolved to the browser zone. */
  lemma RefusedZoneFallsBack(value: string, resolved: Option<string>, parseJsonString: string -> Option<string>,
                             accepts: string -> bool)
    requires value != [] && value != SYSTEM_VALUE && parseJsonString(value).None? && !accepts(value)
    ensures NormalizeStoredTimezoneValue(Some(value), parseJsonString, accepts) == SYSTEM_VALUE
    ensures ResolveEffectiveTimezone(value, resolved, accepts) == GetBrowserTimeZone(resolved, accepts)
  {
  }
}
