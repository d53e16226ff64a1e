/**
 * Evaluate: the condition is decoded first, then the capability picks the
 * branch; hasTags is answered from the tags alone. Only xml and json consult
 * the location cache.
 */
module Dispatch {
  import opened Wrappers
  import opened BuiltinTypes
  import opened LocationResolver
  import opened FileEvaluation
  import opened XmlEvaluation
  import opened JsonEvaluation

  /** The capabilities Evaluate serves. */
  const Capabilities: seq<string> := ["file", "filecontent", "xml", "xmlPublicID", "json", "hasTags"]

  /** A tag is known when the provider context or the client's own tags have it. */
  predicate TagPresent(config: Config, ctx: ProviderContext, tag: string)
  {
    tag in ctx.tags || tag in config.tags
  }

  /** The tag loop: found stays true until a tag is known to neither. */
  function TagsFound(config: Config, ctx: ProviderContext, tags: seq<string>): bool
  {
    tags == [] || (TagPresent(config, ctx, tags[0]) && TagsFound(config, ctx, tags[1..]))
  }

  /** The loop succeeds exactly when every requested tag is known. */
  lemma {:induction false} TagsFoundIff(config: Config, ctx: ProviderContext, tags: seq<string>)
    ensures TagsFound(config, ctx, tags) <==> forall t :: t in tags ==> TagPresent(config, ctx, t)
  {
    if tags != [] {
      TagsFoundIff(config, ctx, tags[1..]);
      assert forall t :: t in tags <==> t == tags[0] || t in tags[1..];
    }
  }

  /** The one incident of a matching hasTags condition: no file, the requested tags as variables. */
  function TagIncident(tags: seq<string>): Incident
  {
    Incident("", None, None, TagVariables(tags))
  }

  /** The hasTags capability. */
  function HasTagsEval(config: Config, cond: Condition): Evaluation
  {
    if TagsFound(config, cond.providerContext, cond.hasTags)
    then Evaluation(Response(true, [TagIncident(cond.hasTags)], None), None)
    else Evaluation(EmptyResponse, None)
  }

  /**
   * hasTags never fails; it matches exactly when every requested tag is
   * known, in particular when none is requested, and then reports exactly
   * one incident carrying the requested tags.
   */
  lemma HasTagsEvalSpec(config: Config, cond: Condition)
    ensures HasTagsEval(config, cond).err.None?
    ensures HasTagsEval(config, cond).response.matched <==>
      forall t :: t in cond.hasTags ==> TagPresent(config, cond.providerContext, t)
    ensures cond.hasTags == [] ==> HasTagsEval(config, cond).response.matched
    ensures HasTagsEval(config, cond).response.incidents ==
      if HasTagsEval(config, cond).response.matched then [TagIncident(cond.hasTags)] else []
  {
    TagsFoundIff(config, cond.providerContext, cond.hasTags);
  }

  /**
   * Evaluate, as a function of the location cache before the call: the
   * evaluation and the cache after it. A condition that cannot be decoded is
   * None.
   */
  function EvaluateSpec(cache: map<string, int>, config: Config, cap: string, cond: Option<Condition>, env: Env): (Evaluation, map<string, int>)
  {
    match cond
    case None => (Evaluation(EmptyResponse, Some(UnreadableCondition)), cache)
    case Some(c) =>
      if cap == "file" then (FileEval(config, c.file, c.providerContext.scopedFilepaths, env), cache)
      else if cap == "filecontent" then (FileContentEval(config, c.filecontent, env), cache)
      else if cap == "xml" then XmlEval(cache, config, c.xml, c.providerContext.scopedFilepaths, env)
      else if cap == "xmlPublicID" then (PublicIdEval(config, c, env), cache)
      else if cap == "json" then JsonEval(cache, config, c, env)
      else if cap == "hasTags" then (HasTagsEval(config, c), cache)
      else (Evaluation(EmptyResponse, Some(UnsupportedCapability(cap))), cache)
  }

  /**
   * An undecodable condition is refused whatever the capability; a decoded
   * one is refused as unsupported exactly when the capability is not one of
   * the six.
   */
  lemma EvaluateRefusals(cache: map<string, int>, config: Config, cap: string, cond: Option<Condition>, env: Env)
    ensures cond.None? ==> EvaluateSpec(cache, config, cap, cond, env) == (Evaluation(EmptyResponse, Some(UnreadableCondition)), cache)
    ensures cond.Some? ==>
      (EvaluateSpec(cache, config, cap, cond, env).0.err == Some(UnsupportedCapability(cap)) <==> cap !in Capabilities)
  {
  }

  /**
   * The cache only grows, and only xml and json touch it. An error comes
   * with the empty response, except a propagated one, which may keep the
   * incidents found before it.
   */
  lemma EvaluateCacheAndErrors(cache: map<string, int>, config: Config, cap: string, cond: Option<Condition>, env: Env)
    ensures CacheExtends(cache, EvaluateSpec(cache, config, cap, cond, env).1)
    ensures cap != "xml" && cap != "json" ==> EvaluateSpec(cache, config, cap, cond, env).1 == cache
    ensures var e := EvaluateSpec(cache, config, cap, cond, env).0;
      e.err.Some? && !e.err.value.Propagated? ==> e.response == EmptyResponse
  {
    if cond.Some? {
      var c := cond.value;
      if cap == "xml" {
        XmlEvalOutcome(cache, config, c.xml, c.providerContext.scopedFilepaths, env);
      } else if cap == "json" {
        JsonEvalOutcome(cache, config, c, env, env);
      }
    }
  }
}
