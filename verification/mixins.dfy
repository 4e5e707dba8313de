/**
 The view mixins: the owner-or-staff guard in front of a view's dispatch,
 and the htmx redirect after a successful form. A request's `HX-Request`
 header is passed in as an optional string; responses are records of
 status, rendered template and headers.
 */
module Mixins {
  import opened Validation

  /** The requesting identity; an anonymous user owns nothing and is not staff. */
  datatype Viewer = Anonymous | Member(id: int, isStaff: bool)

  /** The fetched record, by its owner's id; `None` when the owner is unset. */
  datatype Owned = Owned(owner: Option<int>)

  datatype Response = Response(status: int, template: Option<string>, headers: map<string, string>)

  const ForbiddenTemplate := "modals/403.html"
  const ModalsContainer := "#modals-container"
  const RenderStatus := 200

  /** The guard's test: the requesting user owns the record or is staff. */
  predicate MayAccess(user: Viewer, obj: Owned) {
    user.Member? && (obj.owner == Some(user.id) || user.isStaff)
  }

  /** What `IsOwnerOrAdminRequiredMixin.dispatch` does: the lookup fails
      (`get_object` raises, before any decision), the wrapped dispatch runs and
      its response is returned unchanged, or a denial is answered directly. */
  datatype DispatchOutcome = NotFound | Delegate | Deny(response: Response)

  /** The htmx denial: the 403 modal, rendered with the default status,
      retargeted into the modals container. */
  function HtmxForbidden(): (r: Response)
    ensures r.template == Some(ForbiddenTemplate) && r.status != 403
    ensures r.headers.Keys == {"HX-Retarget", "HX-Reswap"}
    ensures r.headers["HX-Retarget"] == ModalsContainer && r.headers["HX-Reswap"] == "innerHTML"
  {
    Response(RenderStatus, Some(ForbiddenTemplate), map["HX-Retarget" := ModalsContainer, "HX-Reswap" := "innerHTML"])
  }

  /** `HttpResponseForbidden()`: status 403 with no template and no header of the mixin's own. */
  function PlainForbidden(): (r: Response)
    ensures r.status == 403 && r.template.None? && r.headers == map[]
  {
    Response(403, None, map[])
  }

  function Dispatch(user: Viewer, obj: Option<Owned>, hxRequest: Option<string>): (r: DispatchOutcome)
    ensures r.NotFound? <==> obj.None?
    ensures obj.Some? ==> (r.Delegate? <==> MayAccess(user, obj.value))
    ensures r.Deny? && Truthy(hxRequest) ==> r.response == HtmxForbidden()
    ensures r.Deny? && !Truthy(hxRequest) ==> r.response == PlainForbidden()
  {
    match obj
    case None => NotFound
    case Some(o) =>
      if MayAccess(user, o) then Delegate
      else if Truthy(hxRequest) then Deny(HtmxForbidden())
      else Deny(PlainForbidden())
  }

  /** A record without an owner is open to staff only; staff pass everywhere;
      anonymous users never pass. */
  lemma OwnerlessRecordsStaffOnly(user: Viewer, hxRequest: Option<string>)
    ensures Dispatch(user, Some(Owned(None)), hxRequest).Delegate? <==> user.Member? && user.isStaff
    ensures user.Member? && user.isStaff ==>
      forall owner :: Dispatch(user, Some(Owned(owner)), hxRequest) == Delegate
    ensures Dispatch(Anonymous, Some(Owned(Some(0))), hxRequest).Deny?
  {
  }

  /** The guard's answer depends on who asks and who owns, not on the header;
      the header only shapes the denial. */
  lemma HeaderOnlyShapesDenial(user: Viewer, obj: Owned, h1: Option<string>, h2: Option<string>)
    ensures Dispatch(user, Some(obj), h1).Delegate? == Dispatch(user, Some(obj), h2).Delegate?
  {
  }

  /** `HtmxRedirectMixin.render_htmx_redirect`: an empty response that tells
      htmx where to go. */
  function RenderHtmxRedirect(successUrl: string): (r: Response)
    ensures r.status == 200 && r.template.None?
    ensures r.headers == map["HX-Redirect" := successUrl]
  {
    Response(200, None, map["HX-Redirect" := successUrl])
  }

  /** `HtmxRedirectMixin.form_valid`: the wrapped `form_valid` always runs and
      yields `inner`; an htmx request gets the redirect instead of it. */
  function FormValid(inner: Response, hxRequest: Option<string>, successUrl: string): (r: Response)
    ensures Truthy(hxRequest) ==> r.status == 200 && r.template.None? && r.headers == map["HX-Redirect" := successUrl]
    ensures !Truthy(hxRequest) ==> r == inner
  {
    if Truthy(hxRequest) then RenderHtmxRedirect(successUrl) else inner
  }

  /** On an htmx request the wrapped response is discarded: any two give the
      same redirect. Without one, distinct wrapped responses stay distinct. */
  lemma FormValidIgnoresInner(inner1: Response, inner2: Response, hxRequest: Option<string>, successUrl: string)
    ensures Truthy(hxRequest) ==>
      FormValid(inner1, hxRequest, successUrl) == FormValid(inner2, hxRequest, successUrl) == RenderHtmxRedirect(successUrl)
    ensures !Truthy(hxRequest) && inner1 != inner2 ==>
      FormValid(inner1, hxRequest, successUrl) != FormValid(inner2, hxRequest, successUrl)
  {
  }
}
