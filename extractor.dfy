/** Extraction: one Service's annotations become a discovered service, or the
    Service is skipped (main.go, the body of the loop in handleServiceChange). */
module Extractor {

  import opened Wrappers
  import opened Homepage

  /** Only the exact string "true" enables discovery. */
  predicate Enabled(annotations: map<string, string>)
  {
    Lookup(annotations, AnnotationEnabled) == "true"
  }

  /** The record a Service yields, or None when it is not enabled or has no
      href. A missing annotation reads as the empty string. */
  function Extract(annotations: map<string, string>, svcName: string): (r: Option<DiscoveredService>)
    ensures r.Some? <==> Enabled(annotations) && Lookup(annotations, AnnotationHref) != ""
    ensures r.Some? ==> r.value.href == Lookup(annotations, AnnotationHref) != ""
    ensures r.Some? ==> r.value.description == Lookup(annotations, AnnotationDescription)
    ensures r.Some? ==> r.value.icon == Lookup(annotations, AnnotationIcon)
    ensures r.Some? && Lookup(annotations, AnnotationName) != "" ==> r.value.name == Lookup(annotations, AnnotationName)
    ensures r.Some? && Lookup(annotations, AnnotationName) == "" ==> r.value.name == svcName
    ensures r.Some? && Lookup(annotations, AnnotationGroup) != "" ==> r.value.group == Lookup(annotations, AnnotationGroup)
    ensures r.Some? && Lookup(annotations, AnnotationGroup) == "" ==> r.value.group == DefaultGroup
    ensures r.Some? ==> r.value.group != "" && r.value.weight == 0
  {
    if !Enabled(annotations) then None
    else
      var ds := DiscoveredService(
        Lookup(annotations, AnnotationName),
        Lookup(annotations, AnnotationDescription),
        Lookup(annotations, AnnotationGroup),
        Lookup(annotations, AnnotationIcon),
        Lookup(annotations, AnnotationHref),
        0);
      var ds := if ds.name == "" then ds.(name := svcName) else ds;
      var ds := if ds.group == "" then ds.(group := DefaultGroup) else ds;
      if ds.href == "" then None else Some(ds)
  }

  /** Extraction of a Service record. */
  function ExtractService(svc: Service): Option<DiscoveredService>
  {
    Extract(svc.annotations, svc.name)
  }
}
