/** The configuration entry's options (the keys of const.py) as the core
    reads them, and the mutable header dictionary stored among them. */
module Config {

  import opened Wrappers

  /** How the four entity filters are combined (const.py `FilterMode`). */
  datatype FilterMode = Or | And

  /** A Python dict of HTTP header names to values: an object, because the
      dict held in the options is updated in place. */
  class HeaderDict {
    var entries: map<string, string>

    constructor ()
      ensures entries == map[]
    {
      entries := map[];
    }
  }

  /** `entry.options`. An absent key is `None`. `filterMode` is the raw
      stored string; `payloadAttributes` and `payloadOldState` keep only the
      truth value of the stored option. */
  datatype Options = Options(
    webhookUrl: Option<string>,
    webhookAuthHeader: Option<string>,
    webhookHeaders: Option<HeaderDict>,
    filterMode: Option<string>,
    entityIdGlob: Option<string>,
    entityIds: Option<seq<string>>,
    entityDomain: Option<string>,
    entityLabels: Option<seq<string>>,
    payloadOldState: Option<bool>,
    payloadAttributes: Option<bool>
  )

  /** `str(options.get(CONF_WEBHOOK_URL))`: an absent URL becomes "None". */
  function WebhookUrl(o: Options): (url: string)
    ensures o.webhookUrl.Some? ==> url == o.webhookUrl.value
    ensures o.webhookUrl.None? ==> url == "None"
  {
    match o.webhookUrl
    case Some(u) => u
    case None => "None"
  }
}
