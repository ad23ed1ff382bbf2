/** The request-time decisions of `InjectionMiddleware` in
    `scrapy_poet/middleware.py`: whether a download can be skipped, and how
    the injected dependencies are merged into the callback's arguments. */
module Middleware {
  import opened Base
  import opened Http

  /** The two answers the middleware asks of its `Injector`, which plans and
      builds the dependencies and is not part of this model. */
  datatype Injector = Injector(
    /** `is_scrapy_response_required(request)`: whether the callback or one of
        its providers needs the downloaded response. */
    isScrapyResponseRequired: Request -> bool,
    /** `build_callback_dependencies(request, response)`: the instances to
        inject, by callback argument name. */
    buildCallbackDependencies: (Request, Response) -> map<string, Value>)

  /** The callback arguments after injection: every argument the user set
      keeps its value, and every injected argument the user did not set is
      added with the injected instance. */
  function MergeCallbackArguments(user: map<string, Value>, injected: map<string, Value>): (merged: map<string, Value>)
    ensures merged.Keys == user.Keys + injected.Keys
    ensures forall arg :: arg in user ==> merged[arg] == user[arg]
    ensures forall arg :: arg in injected && arg !in user ==> merged[arg] == injected[arg]
  {
    injected + user
  }

  /** Merging the same injected arguments a second time changes nothing. */
  lemma MergeIsIdempotent(user: map<string, Value>, injected: map<string, Value>)
    ensures MergeCallbackArguments(MergeCallbackArguments(user, injected), injected) ==
      MergeCallbackArguments(user, injected)
  {
    var once := MergeCallbackArguments(user, injected);
    var twice := MergeCallbackArguments(once, injected);
    assert twice.Keys == once.Keys;
    assert forall arg :: arg in once ==> twice[arg] == once[arg];
  }

  class InjectionMiddleware {
    const injector: Injector

    /** Building the injector from the crawler settings is not modelled: the
        middleware is given its injector. */
    constructor (injector: Injector)
      ensures this.injector == injector
    {
      this.injector := injector;
    }

    /** `process_request`: `None` (let the download happen) exactly when the
        injector says the response is required; otherwise a `DummyResponse`
        with the request's URL, linked to the request itself. */
    function ProcessRequest(request: Request): (r: Option<Response>)
      ensures r.None? <==> injector.isScrapyResponseRequired(request)
      ensures r.Some? ==> r.value.DummyResponse? && r.value.url == request.url && r.value.request == request
    {
      if injector.isScrapyResponseRequired(request) then None
      else Some(DummyResponse(request.url, request))
    }

    /** `process_response`: fills `request.cbKwargs` with the injected
        instances, one argument at a time, skipping the arguments the user
        already set, and returns the response it was given. */
    method ProcessResponse(request: Request, response: Response) returns (r: Response)
      modifies request
      ensures r == response
      ensures request.cbKwargs ==
        MergeCallbackArguments(old(request.cbKwargs), injector.buildCallbackDependencies(request, response))
      ensures request.cbKwargs.Keys ==
        old(request.cbKwargs).Keys + injector.buildCallbackDependencies(request, response).Keys
      ensures forall arg :: arg in old(request.cbKwargs) ==> request.cbKwargs[arg] == old(request.cbKwargs)[arg]
    {
      var finalKwargs := injector.buildCallbackDependencies(request, response);
      var pending := finalKwargs.Keys;
      while pending != {}
        invariant pending <= finalKwargs.Keys
        invariant request.cbKwargs.Keys == old(request.cbKwargs).Keys + (finalKwargs.Keys - pending)
        invariant forall arg :: arg in old(request.cbKwargs) ==> request.cbKwargs[arg] == old(request.cbKwargs)[arg]
        invariant forall arg :: arg in finalKwargs && arg !in pending && arg !in old(request.cbKwargs) ==>
          request.cbKwargs[arg] == finalKwargs[arg]
        decreases pending
      {
        var arg :| arg in pending;
        if arg !in request.cbKwargs {
          request.cbKwargs := request.cbKwargs[arg := finalKwargs[arg]];
        }
        pending := pending - {arg};
      }
      return response;
    }
  }
}
