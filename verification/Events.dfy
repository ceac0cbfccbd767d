/** The event record (picolytics/trackers.go) and its enrichment (picolytics/enrich.go).
    GeoIP lookup and user-agent parsing are foreign code: here they are arbitrary functions. */
module Events {
  import opened Wrappers

  /** What the tracker script reports about the browser window and the campaign. */
  datatype Client = Client(
    screenW: int, screenH: int, pixelRatio: real, pixelDepth: int, timezone: string,
    utmSource: string, utmMedium: string, utmTerm: string, utmContent: string, utmCampaign: string)

  datatype Place = Place(
    longitude: real, latitude: real, country: string, subdivision: string, city: string)

  datatype Agent = Agent(
    browser: string, browserVersion: string, os: string, osVersion: string,
    platform: string, deviceType: string, bot: bool)

  datatype Event = Event(
    name: string, location: string, referrer: string, loadTime: int, ttfb: int, client: Client,
    lang: string, clientIp: string, userAgent: string,
    domain: string, path: string, visitorId: string,
    agent: Agent, place: Place)

  /** A GeoIP answer; the subdivision and city names may be missing from it. */
  datatype Lookup = Lookup(
    longitude: real, latitude: real, country: string,
    subdivision: Option<string>, city: Option<string>)

  /** The foreign code an event passes through. */
  datatype Foreign = Foreign(
    lookupIp: string -> Option<Lookup>,
    parseAgent: string -> Agent,
    parseUrl: string -> Option<(string, string)>,
    visitorHash: (string, Event) -> string)

  /** `enrichEvent`: a failed lookup leaves the event as it was. */
  function Enrich(e: Event, foreign: Foreign): Event {
    match foreign.lookupIp(e.clientIp)
    case None => e
    case Some(g) =>
      var place := Place(g.longitude, g.latitude, g.country,
                         if g.subdivision.Some? then g.subdivision.value else e.place.subdivision,
                         if g.city.Some? then g.city.value else e.place.city);
      var located := e.(place := place);
      if |e.userAgent| > 1 then located.(agent := foreign.parseAgent(e.userAgent)) else located
  }

  /** What the worker does to a received event before it joins the batch: enrich it, whether or
      not that works, and blank the two fields that must never be stored. */
  function Prepare(e: Event, foreign: Foreign): (p: Event)
    ensures p == e.(agent := p.agent, place := p.place, clientIp := "", userAgent := "")
  {
    Enrich(e, foreign).(clientIp := "", userAgent := "")
  }

  /** Where the place and the agent of a prepared event come from: from the lookup and the parser if
      the lookup works, and otherwise from the event, which then keeps both. */
  lemma {:induction false} PreparedFrom(e: Event, foreign: Foreign)
    ensures var p, found := Prepare(e, foreign), foreign.lookupIp(e.clientIp);
            if found.None? then p.place == e.place && p.agent == e.agent
            else
              && p.place.longitude == found.value.longitude && p.place.latitude == found.value.latitude
              && p.place.country == found.value.country
              && (if found.value.subdivision.Some? then found.value.subdivision == Some(p.place.subdivision)
                  else p.place.subdivision == e.place.subdivision)
              && (if found.value.city.Some? then found.value.city == Some(p.place.city)
                  else p.place.city == e.place.city)
              && p.agent == (if |e.userAgent| <= 1 then e.agent else foreign.parseAgent(e.userAgent))
  {
  }

  /** The event names that do not count as a page interaction. */
  predicate Passive(name: string) {
    name == "hidden" || name == "ping"
  }
}
