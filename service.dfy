/**
 The service record of the registry and the validation the HTTP layer applies
 to it before it reaches a store (internal/service.go).
 */
module Services {

  /** A point in time. Go's `time.Time` is modelled by an integer clock reading;
      the zero value of `time.Time` ("never") is `ZeroTime`. */
  type Time = int

  const ZeroTime: Time := 0

  /** One registered service. In the source every store and the polling
      decorator pass records around by pointer, so a record is an object here:
      a store that hands out a record hands out the object it keeps, and the
      health fields written through one reference are seen through all others.
      The descriptive fields are never written once a record exists, so they
      are constants; only the three health fields are variables. */
  class Service {
    const ServiceURL: string
    const SpecURL: string
    const Tags: seq<string>
    const Description: string
    const HealthcheckURL: string
    var Available: bool
    var LastChecked: Time
    var LastAvailable: Time

    constructor (serviceURL: string, specURL: string, tags: seq<string>, description: string,
                 healthcheckURL: string, available: bool, lastChecked: Time, lastAvailable: Time)
      ensures ServiceURL == serviceURL && SpecURL == specURL && Tags == tags
      ensures Description == description && HealthcheckURL == healthcheckURL
      ensures Available == available && LastChecked == lastChecked && LastAvailable == lastAvailable
    {
      ServiceURL := serviceURL;
      SpecURL := specURL;
      Tags := tags;
      Description := description;
      HealthcheckURL := healthcheckURL;
      Available := available;
      LastChecked := lastChecked;
      LastAvailable := lastAvailable;
    }
  }

  /** The three required text fields are present. */
  predicate HasRequiredFields(s: Service)
  {
    s.ServiceURL != "" && s.SpecURL != "" && s.Description != ""
  }

  /** `validate`: the three required fields must be non-empty, the service and
      spec URLs must parse as request URIs, and a health-check URL, when one is
      given, must parse too. `parsesAsRequestURI` stands for the success of
      Go's `url.ParseRequestURI`, whose rules are not part of this model.
      The receiver is a value in the source; here the function reads none of
      the record's variable fields, so it neither changes nor depends on them. */
  function Validate(s: Service, parsesAsRequestURI: string -> bool): (ok: bool)
    ensures !HasRequiredFields(s) ==> !ok
    ensures !parsesAsRequestURI(s.ServiceURL) || !parsesAsRequestURI(s.SpecURL) ==> !ok
    ensures s.HealthcheckURL != "" && !parsesAsRequestURI(s.HealthcheckURL) ==> !ok
    ensures (HasRequiredFields(s) && parsesAsRequestURI(s.ServiceURL) && parsesAsRequestURI(s.SpecURL)
             && (s.HealthcheckURL == "" || parsesAsRequestURI(s.HealthcheckURL))) ==> ok
  {
    if s.ServiceURL == "" || s.SpecURL == "" || s.Description == "" then false
    else if !parsesAsRequestURI(s.ServiceURL) then false
    else if !parsesAsRequestURI(s.SpecURL) then false
    else if s.HealthcheckURL != "" && !parsesAsRequestURI(s.HealthcheckURL) then false
    else true
  }

  /** An empty health-check URL is never a reason for rejection: such a record
      is accepted exactly when its required fields pass. */
  lemma EmptyHealthcheckNeverRejects(s: Service, parsesAsRequestURI: string -> bool)
    requires s.HealthcheckURL == ""
    ensures Validate(s, parsesAsRequestURI)
            <==> HasRequiredFields(s) && parsesAsRequestURI(s.ServiceURL) && parsesAsRequestURI(s.SpecURL)
  {
  }

  /** Tags and the three health fields never affect validation: two records
      that agree on the four URL and text fields are judged alike. */
  lemma ValidateIgnoresTagsAndHealth(a: Service, b: Service, parsesAsRequestURI: string -> bool)
    requires a.ServiceURL == b.ServiceURL && a.SpecURL == b.SpecURL
    requires a.Description == b.Description && a.HealthcheckURL == b.HealthcheckURL
    ensures Validate(a, parsesAsRequestURI) == Validate(b, parsesAsRequestURI)
  {
  }
}
