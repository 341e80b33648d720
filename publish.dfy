/** The publish decision of the `push` command: find the index image among
    the local images, build it when allowed, retag it for a tag extension,
    apply the extra tags and push everything, extra tags first. The local
    image list and the settings are inputs; every subprocess the command
    would start is recorded as an action instead. */
module Publish {
  import opened Results
  import opened Text
  import opened RuntimeChoice
  import opened IndexSettings

  /** One step of the plan, in the order the command takes them. */
  datatype Action =
    | Build(extension: Option<string>)           // `do_build` with the same tag extension
    | RetagConstructed(src: string, dst: string) // a tag command prepared but never started
    | RunTag(src: string, dst: string)           // `<runtime> tag src dst`
    | RunPush(ref: string)                       // `<runtime> push ref`

  /** What the command does, and the tag it finally works with. */
  datatype PushPlan = PushPlan(actions: seq<Action>, workingTag: string)

  datatype PushError = ImageNotFound

  /** `tag` with the extension `e` appended. */
  function Extended(tag: string, e: string): string
  {
    tag + "-" + e
  }

  /** Every extra bare tag qualified with the index image name. */
  function ExtraRefs(img: string, extraTags: seq<string>): seq<string>
  {
    seq(|extraTags|, k requires 0 <= k < |extraTags| => Ref(img, extraTags[k]))
  }

  function TagActions(working: string, refs: seq<string>): seq<Action>
  {
    seq(|refs|, k requires 0 <= k < |refs| => RunTag(working, refs[k]))
  }

  function PushActions(refs: seq<string>): seq<Action>
  {
    seq(|refs|, k requires 0 <= k < |refs| => RunPush(refs[k]))
  }

  /** Tag the working image with every extra reference, then push the extra
      references and the working tag last. */
  function Publishing(working: string, refs: seq<string>): seq<Action>
  {
    TagActions(working, refs) + PushActions(refs + [working])
  }

  /** Whether the local images hold the requested image: the extended tag
      when an extension is given, or else the configured tag, compared
      exactly. */
  predicate Found(configured: string, extension: Option<string>, images: seq<string>)
  {
    (extension.Some? && Extended(configured, extension.value) in images) || configured in images
  }

  /** The tag the searches settle on: the extended one takes precedence. */
  function Resolved(configured: string, extension: Option<string>, images: seq<string>): string
  {
    if extension.Some? && Extended(configured, extension.value) in images
    then Extended(configured, extension.value)
    else configured
  }

  /** A found image is retagged only for a non-empty extension that the tag
      does not already end with. */
  predicate NeedsRetag(resolved: string, extension: Option<string>)
  {
    extension.Some? && extension.value != "" && !EndsWith(resolved, "-" + extension.value)
  }

  /** What happens before the extra tags: a build, a retag, or nothing, and
      the tag the rest of the command works with. */
  datatype Decision = Decision(prelude: seq<Action>, working: string)

  /** The build-or-retag decision once the searches are over. It fails
      exactly when nothing was found and building is off, it builds exactly
      when nothing was found, and with a non-empty extension `E` the working
      tag always ends in `-E`. */
  function Decide(index: OperatorIndex, extension: Option<string>, images: seq<string>,
                  build: bool): (r: Result<Decision, PushError>)
    ensures r.Err? <==> !build && !Found(ConfiguredRef(index), extension, images)
    ensures r.Ok? ==> (r.value.prelude == [Build(extension)] <==> !Found(ConfiguredRef(index), extension, images))
    ensures r.Ok? && extension.Some? && extension.value != "" ==> EndsWith(r.value.working, "-" + extension.value)
  {
    var configured := ConfiguredRef(index);
    if !Found(configured, extension, images) then
      if build then
        var working := BuiltRef(index, extension);
        assert extension.Some? ==> EndsWith(working, "-" + extension.value) by {
          if extension.Some? { ExtendedEndsWith(configured, extension.value); }
        }
        Ok(Decision([Build(extension)], working))
      else Err(ImageNotFound)
    else
      var resolved := Resolved(configured, extension, images);
      if NeedsRetag(resolved, extension) then
        var working := Extended(resolved, extension.value);
        ExtendedEndsWith(resolved, extension.value);
        Ok(Decision([RetagConstructed(resolved, working)], working))
      else
        Ok(Decision([], resolved))
  }

  lemma ExtendedEndsWith(tag: string, e: string)
    ensures EndsWith(Extended(tag, e), "-" + e)
    ensures Extended(tag, e) == tag + ("-" + e)
  {
    EndsWithAppended(tag, "-" + e);
  }

  /** The outcome of `push` as a function of its inputs. */
  function PushSpec(index: OperatorIndex, extension: Option<string>, images: seq<string>,
                    build: bool, extraTags: seq<string>): Result<PushPlan, PushError>
  {
    match Decide(index, extension, images, build)
    case Err(e) => Err(e)
    case Ok(d) => Ok(PushPlan(d.prelude + Publishing(d.working, ExtraRefs(index.img, extraTags)), d.working))
  }

  /** The two searches of `push` (operator-index.py:339-354): first for the
      extended tag when an extension is given, then, if that found nothing,
      for the configured tag; each stops at its first exact match. */
  method Search(configured: string, extension: Option<string>, images: seq<string>)
    returns (foundImage: bool, builtTag: string)
    ensures foundImage <==> Found(configured, extension, images)
    ensures builtTag == Resolved(configured, extension, images)
  {
    builtTag := configured;
    foundImage := false;
    if extension.Some? {
      for k := 0 to |images|
        invariant !foundImage && builtTag == configured
        invariant forall j :: 0 <= j < k ==> images[j] != Extended(configured, extension.value)
      {
        if images[k] == builtTag + "-" + extension.value {
          builtTag := builtTag + "-" + extension.value;
          foundImage := true;
          break;
        }
      }
    }
    if !foundImage {
      for k := 0 to |images|
        invariant !foundImage && builtTag == configured
        invariant forall j :: 0 <= j < k ==> images[j] != configured
      {
        if images[k] == builtTag {
          foundImage := true;
          break;
        }
      }
    }
  }

  /** The closing loops of `push` (operator-index.py:385-395): after the
      actions taken so far, tag the working image with every extra
      reference in order, then push the extra references and the working
      tag last. */
  method TagAndPush(before: seq<Action>, working: string, refs: seq<string>)
    returns (actions: seq<Action>)
    ensures actions == before + Publishing(working, refs)
  {
    actions := before;
    for k := 0 to |refs|
      invariant actions == before + TagActions(working, refs[..k])
    {
      actions := actions + [RunTag(working, refs[k])];
    }
    assert refs[..|refs|] == refs;
    var pushRefs := refs + [working];
    for k := 0 to |pushRefs|
      invariant actions == before + TagActions(working, refs) + PushActions(pushRefs[..k])
    {
      actions := actions + [RunPush(pushRefs[k])];
    }
    assert pushRefs[..|pushRefs|] == pushRefs;
  }

  /** The body of `push`: the searches, then the build or retag decision,
      then one tag command per extra tag and one push per reference. */
  method Push(index: OperatorIndex, extension: Option<string>, images: seq<string>,
              build: bool, extraTags: seq<string>)
    returns (outcome: Result<PushPlan, PushError>)
    ensures outcome == PushSpec(index, extension, images, build, extraTags)
  {
    var foundImage, builtTag := Search(ConfiguredRef(index), extension, images);
    ghost var resolved := builtTag;
    var actions: seq<Action> := [];
    if !foundImage {
      if build {
        actions := actions + [Build(extension)];
        if extension.Some? {
          builtTag := builtTag + "-" + extension.value;
        }
        assert builtTag == BuiltRef(index, extension);
        assert actions == [Build(extension)];
      } else {
        return Err(ImageNotFound);
      }
    } else if extension.Some? && extension.value != "" && !EndsWith(builtTag, "-" + extension.value) {
      actions := actions + [RetagConstructed(builtTag, builtTag + "-" + extension.value)];
      builtTag := builtTag + "-" + extension.value;
      assert NeedsRetag(resolved, extension) && builtTag == Extended(resolved, extension.value);
      assert actions == [RetagConstructed(resolved, builtTag)];
    } else {
      assert !NeedsRetag(resolved, extension);
    }

    assert Decide(index, extension, images, build) == Ok(Decision(actions, builtTag));
    actions := TagAndPush(actions, builtTag, ExtraRefs(index.img, extraTags));
    return Ok(PushPlan(actions, builtTag));
  }

  // ---------------------------------------------------------------------
  // The command lines behind the actions

  /** The command line an action stands for: the build command of `do_build`,
      or a runtime `tag` / `push` command. */
  function CommandText(opmPath: string, settings: Settings, rt: Runtime, a: Action): (r: string)
    ensures a.Build? ==> |r| > |opmPath| && r[..|opmPath|] == opmPath
    ensures !a.Build? ==> |r| > |RuntimeName(rt)| && r[..|RuntimeName(rt)| + 1] == RuntimeName(rt) + " "
    ensures a.RunPush? ==> EndsWith(r, " " + a.ref)
    ensures a.RunTag? || a.RetagConstructed? ==> EndsWith(r, " " + a.dst)
  {
    var name := RuntimeName(rt);
    match a
    case Build(extension) => BuildCommand(opmPath, settings, rt, extension)
    case RetagConstructed(src, dst) => TagText(name, src, dst)
    case RunTag(src, dst) => TagText(name, src, dst)
    case RunPush(ref) =>
      EndsWithAppended(name + " push", " " + ref);
      assert name + " push" + (" " + ref) == name + " push " + ref;
      assert (name + " push " + ref)[..|name| + 1] == name + " ";
      name + " push " + ref
  }

  /** `<runtime> tag src dst`. */
  function TagText(name: string, src: string, dst: string): (r: string)
    ensures |r| > |name| && r[..|name| + 1] == name + " "
    ensures EndsWith(r, " " + dst)
  {
    EndsWithAppended(name + " tag " + src, " " + dst);
    assert name + " tag " + src + (" " + dst) == name + " tag " + src + " " + dst;
    assert (name + " tag " + src + " " + dst)[..|name| + 1] == name + " ";
    name + " tag " + src + " " + dst
  }

  /** The words the runtime receives for a tag and for a push command. */
  lemma RuntimeCommandArgv(opmPath: string, settings: Settings, rt: Runtime, src: string, dst: string)
    requires PlainWord(src) && PlainWord(dst)
    ensures Split(' ', CommandText(opmPath, settings, rt, RunTag(src, dst))) == [RuntimeName(rt), "tag", src, dst]
    ensures Split(' ', CommandText(opmPath, settings, rt, RunPush(dst))) == [RuntimeName(rt), "push", dst]
  {
    assert ' ' !in RuntimeName(rt) by { assert rt.Docker? || rt.Podman?; }
    PlainWordHasNoBlank(src);
    PlainWordHasNoBlank(dst);
    TagArgv(RuntimeName(rt), src, dst);
    PushArgv(RuntimeName(rt), dst);
  }

  /** The words of `R tag src dst`. */
  lemma TagArgv(r: string, src: string, dst: string)
    requires ' ' !in r && ' ' !in src && ' ' !in dst
    ensures Split(' ', r + " tag " + src + " " + dst) == [r, "tag", src, dst]
  {
    var s2 := src + " " + dst;
    var s1 := "tag" + " " + s2;
    var p := r + " tag ";
    assert p + src + " " + dst == p + s2 by { Regroup3(p + src, " ", dst); Regroup3(p, src, " " + dst); }
    assert p + s2 == r + (" " + s1) by { Regroup3(r, " tag ", s2); Regroup3(" ", "tag ", s2); Regroup3("tag", " ", s2); }
    assert r + (" " + s1) == r + " " + s1 by { Regroup3(r, " ", s1); }
    SplitWhole(' ', dst);
    SplitWord(' ', src, dst);
    SplitWord(' ', "tag", s2);
    SplitWord(' ', r, s1);
  }

  /** The words of `R push ref`. */
  lemma PushArgv(r: string, ref: string)
    requires ' ' !in r && ' ' !in ref
    ensures Split(' ', r + " push " + ref) == [r, "push", ref]
  {
    var s1 := "push" + " " + ref;
    assert r + " push " + ref == r + (" " + s1) by { Regroup3(r, " push ", ref); Regroup3(" ", "push ", ref); Regroup3("push", " ", ref); }
    assert r + (" " + s1) == r + " " + s1 by { Regroup3(r, " ", s1); }
    SplitWhole(' ', ref);
    SplitWord(' ', "push", ref);
    SplitWord(' ', r, s1);
  }

  // ---------------------------------------------------------------------
  // What is tagged and pushed

  /** The references pushed, in order. */
  function Pushed(actions: seq<Action>): seq<string>
  {
    if |actions| == 0 then []
    else (if actions[0].RunPush? then [actions[0].ref] else []) + Pushed(actions[1..])
  }

  /** The targets of the tag commands that run, in order. */
  function Tagged(actions: seq<Action>): seq<string>
  {
    if |actions| == 0 then []
    else (if actions[0].RunTag? then [actions[0].dst] else []) + Tagged(actions[1..])
  }

  lemma {:induction false} PushedAppend(a: seq<Action>, b: seq<Action>)
    ensures Pushed(a + b) == Pushed(a) + Pushed(b)
    decreases |a|
  {
    if |a| > 0 {
      assert (a + b)[1..] == a[1..] + b;
      PushedAppend(a[1..], b);
    } else {
      assert a + b == b;
    }
  }

  lemma {:induction false} TaggedAppend(a: seq<Action>, b: seq<Action>)
    ensures Tagged(a + b) == Tagged(a) + Tagged(b)
    decreases |a|
  {
    if |a| > 0 {
      assert (a + b)[1..] == a[1..] + b;
      TaggedAppend(a[1..], b);
    } else {
      assert a + b == b;
    }
  }

  lemma {:induction false} PublishingFilters(working: string, refs: seq<string>)
    ensures Pushed(TagActions(working, refs)) == [] && Tagged(TagActions(working, refs)) == refs
    ensures Pushed(PushActions(refs)) == refs && Tagged(PushActions(refs)) == []
    decreases |refs|
  {
    if |refs| > 0 {
      assert TagActions(working, refs) == [RunTag(working, refs[0])] + TagActions(working, refs[1..]);
      assert PushActions(refs) == [RunPush(refs[0])] + PushActions(refs[1..]);
      assert TagActions(working, refs)[1..] == TagActions(working, refs[1..]);
      assert PushActions(refs)[1..] == PushActions(refs[1..]);
      PublishingFilters(working, refs[1..]);
      assert [refs[0]] + refs[1..] == refs;
    }
  }

  /** Only tag and push commands follow the build-or-retag step. */
  lemma PublishingOnlyTagsAndPushes(working: string, refs: seq<string>)
    ensures forall k :: 0 <= k < |Publishing(working, refs)| ==>
      Publishing(working, refs)[k] == (if k < |refs| then RunTag(working, refs[k])
                                       else RunPush((refs + [working])[k - |refs|]))
  {
  }

  /** A step that neither tags nor pushes contributes nothing to either list. */
  lemma {:induction false} NoRunsFilter(actions: seq<Action>)
    requires forall k :: 0 <= k < |actions| ==> !actions[k].RunTag? && !actions[k].RunPush?
    ensures Pushed(actions) == [] && Tagged(actions) == []
    decreases |actions|
  {
    if |actions| > 0 {
      NoRunsFilter(actions[1..]);
    }
  }

  /** A plan made of a prelude that runs nothing, then the publishing steps. */
  lemma PlanFilters(prelude: seq<Action>, working: string, refs: seq<string>)
    requires forall k :: 0 <= k < |prelude| ==> !prelude[k].RunTag? && !prelude[k].RunPush?
    ensures Pushed(prelude + Publishing(working, refs)) == refs + [working]
    ensures Tagged(prelude + Publishing(working, refs)) == refs
  {
    NoRunsFilter(prelude);
    PushedAppend(prelude, Publishing(working, refs));
    TaggedAppend(prelude, Publishing(working, refs));
    PushedAppend(TagActions(working, refs), PushActions(refs + [working]));
    TaggedAppend(TagActions(working, refs), PushActions(refs + [working]));
    PublishingFilters(working, refs);
    PublishingFilters(working, refs + [working]);
  }

  /** The prelude `Decide` chooses is a build, a prepared retag or nothing. */
  lemma DecidedPreludeRunsNothing(index: OperatorIndex, extension: Option<string>, images: seq<string>, build: bool)
    requires Decide(index, extension, images, build).Ok?
    ensures var prelude := Decide(index, extension, images, build).value.prelude;
      forall k :: 0 <= k < |prelude| ==> !prelude[k].RunTag? && !prelude[k].RunPush?
  {
  }

  /** The pushes are the extra references, in the order given and with
      duplicates kept, followed by the working tag. */
  lemma PushOrder(index: OperatorIndex, extension: Option<string>, images: seq<string>,
                  build: bool, extraTags: seq<string>)
    requires PushSpec(index, extension, images, build, extraTags).Ok?
    ensures var p := PushSpec(index, extension, images, build, extraTags).value;
      |Pushed(p.actions)| == |extraTags| + 1
      && (forall k :: 0 <= k < |extraTags| ==> Pushed(p.actions)[k] == index.img + ":" + extraTags[k])
      && Pushed(p.actions)[|extraTags|] == p.workingTag
  {
    var d := Decide(index, extension, images, build).value;
    var refs := ExtraRefs(index.img, extraTags);
    var p := PushSpec(index, extension, images, build, extraTags).value;
    assert p.actions == d.prelude + Publishing(d.working, refs) && p.workingTag == d.working;
    DecidedPreludeRunsNothing(index, extension, images, build);
    PlanFilters(d.prelude, d.working, refs);
  }

  /** Exactly one tag command runs per extra tag, in the order given, and
      every tag command that runs starts from the working tag. */
  lemma ExtraTagCommands(index: OperatorIndex, extension: Option<string>, images: seq<string>,
                         build: bool, extraTags: seq<string>)
    requires PushSpec(index, extension, images, build, extraTags).Ok?
    ensures var p := PushSpec(index, extension, images, build, extraTags).value;
      |Tagged(p.actions)| == |extraTags|
      && (forall k :: 0 <= k < |extraTags| ==> Tagged(p.actions)[k] == index.img + ":" + extraTags[k])
      && (forall k :: 0 <= k < |p.actions| && p.actions[k].RunTag? ==> p.actions[k].src == p.workingTag)
  {
    var d := Decide(index, extension, images, build).value;
    var refs := ExtraRefs(index.img, extraTags);
    var p := PushSpec(index, extension, images, build, extraTags).value;
    assert p.actions == d.prelude + Publishing(d.working, refs) && p.workingTag == d.working;
    DecidedPreludeRunsNothing(index, extension, images, build);
    PlanFilters(d.prelude, d.working, refs);
    PlanTagSources(d.prelude, d.working, refs);
  }

  /** In a plan whose prelude runs nothing, every tag command starts from
      the working tag. */
  lemma PlanTagSources(prelude: seq<Action>, working: string, refs: seq<string>)
    requires forall k :: 0 <= k < |prelude| ==> !prelude[k].RunTag? && !prelude[k].RunPush?
    ensures var actions := prelude + Publishing(working, refs);
      forall k :: 0 <= k < |actions| && actions[k].RunTag? ==> actions[k].src == working
  {
    var actions := prelude + Publishing(working, refs);
    PublishingOnlyTagsAndPushes(working, refs);
    forall k | 0 <= k < |actions| && actions[k].RunTag?
      ensures actions[k].src == working
    {
      if k >= |prelude| {
        assert actions[k] == Publishing(working, refs)[k - |prelude|];
      }
    }
  }

  // ---------------------------------------------------------------------
  // Tag resolution and the build-or-retag decision

  /** An image under the extended tag wins: it becomes the working tag, and
      there is neither a build nor a retag. */
  lemma ExtendedMatchTakesPrecedence(index: OperatorIndex, e: string, images: seq<string>,
                                     build: bool, extraTags: seq<string>)
    requires Extended(ConfiguredRef(index), e) in images
    ensures var working := index.img + ":" + index.tag + "-" + e;
      PushSpec(index, Some(e), images, build, extraTags)
        == Ok(PushPlan(Publishing(working, ExtraRefs(index.img, extraTags)), working))
  {
    var c := ConfiguredRef(index);
    EndsWithAppended(c, "-" + e);
    assert c + ("-" + e) == Extended(c, e);
    assert Found(c, Some(e), images);
    assert Resolved(c, Some(e), images) == Extended(c, e);
    assert !NeedsRetag(Extended(c, e), Some(e));
    assert Decide(index, Some(e), images, build) == Ok(Decision([], Extended(c, e)));
    var refs := ExtraRefs(index.img, extraTags);
    assert [] + Publishing(Extended(c, e), refs) == Publishing(Extended(c, e), refs);
  }

  /** Without the extended image, the configured tag counts as found. With a
      non-empty extension the tag does not already end with, a retag to the
      extended tag is prepared and the extended tag becomes the working tag;
      otherwise the configured tag is the working tag. */
  lemma GenericFallback(index: OperatorIndex, extension: Option<string>, images: seq<string>,
                        build: bool, extraTags: seq<string>)
    requires ConfiguredRef(index) in images
    requires extension.Some? ==> Extended(ConfiguredRef(index), extension.value) !in images
    ensures var c := index.img + ":" + index.tag;
      var refs := ExtraRefs(index.img, extraTags);
      PushSpec(index, extension, images, build, extraTags)
        == if extension.Some? && extension.value != "" && !EndsWith(c, "-" + extension.value)
           then Ok(PushPlan([RetagConstructed(c, c + "-" + extension.value)]
                            + Publishing(c + "-" + extension.value, refs), c + "-" + extension.value))
           else Ok(PushPlan(Publishing(c, refs), c))
  {
    var c := ConfiguredRef(index);
    assert Found(c, extension, images);
    assert Resolved(c, extension, images) == c;
    if NeedsRetag(c, extension) {
      assert Decide(index, extension, images, build)
        == Ok(Decision([RetagConstructed(c, Extended(c, extension.value))], Extended(c, extension.value)));
    } else {
      assert Decide(index, extension, images, build) == Ok(Decision([], c));
      var refs := ExtraRefs(index.img, extraTags);
      assert [] + Publishing(c, refs) == Publishing(c, refs);
    }
  }

  /** With neither tag present the command fails unless building is allowed;
      then it builds with the same extension and works with what the build
      tags: `img:tag`, or `img:tag-E` for an extension `E`. */
  lemma MissingImage(index: OperatorIndex, extension: Option<string>, images: seq<string>,
                     build: bool, extraTags: seq<string>)
    requires !Found(ConfiguredRef(index), extension, images)
    ensures var working := index.img + ":" + index.tag + (if extension.Some? then "-" + extension.value else "");
      PushSpec(index, extension, images, build, extraTags)
        == if build then Ok(PushPlan([Build(extension)] + Publishing(working, ExtraRefs(index.img, extraTags)), working))
           else Err(ImageNotFound)
  {
  }

  /** The command fails exactly when neither tag is present and building is
      not allowed; it builds exactly when neither tag is present; it
      prepares a retag exactly when the configured tag was found and needs
      the extension. Presence means an entry equal to the tag: an entry that
      merely starts with it or contains it does not count. */
  lemma DecisionIff(index: OperatorIndex, extension: Option<string>, images: seq<string>,
                    build: bool, extraTags: seq<string>)
    ensures var c := index.img + ":" + index.tag;
      var present := (extension.Some? && c + "-" + extension.value in images) || c in images;
      var r := PushSpec(index, extension, images, build, extraTags);
      (r.Err? <==> !build && !present)
      && (r.Ok? ==>
            ((exists k :: 0 <= k < |r.value.actions| && r.value.actions[k].Build?) <==> !present)
            && ((exists k :: 0 <= k < |r.value.actions| && r.value.actions[k].RetagConstructed?) <==>
                  present && NeedsRetag(Resolved(c, extension, images), extension)))
  {
    var r := PushSpec(index, extension, images, build, extraTags);
    if r.Ok? {
      var d := Decide(index, extension, images, build).value;
      var refs := ExtraRefs(index.img, extraTags);
      PublishingOnlyTagsAndPushes(d.working, refs);
      assert r.value.actions == d.prelude + Publishing(d.working, refs);
      if |d.prelude| == 1 {
        assert r.value.actions[0] == d.prelude[0];
      }
    }
  }

  /** An empty extension is looked for as `img:tag-`; it never triggers a
      retag, so finding only `img:tag` keeps `img:tag`, while a build makes
      `img:tag-`. */
  lemma EmptyExtension(index: OperatorIndex, images: seq<string>, build: bool, extraTags: seq<string>)
    requires PushSpec(index, Some(""), images, build, extraTags).Ok?
    ensures var c := index.img + ":" + index.tag;
      var p := PushSpec(index, Some(""), images, build, extraTags).value;
      p.workingTag == (if c + "-" !in images && c in images then c else c + "-")
      && forall k :: 0 <= k < |p.actions| ==> !p.actions[k].RetagConstructed?
  {
    var c := ConfiguredRef(index);
    var d := Decide(index, Some(""), images, build).value;
    var refs := ExtraRefs(index.img, extraTags);
    PublishingOnlyTagsAndPushes(d.working, refs);
    assert !NeedsRetag(Resolved(c, Some(""), images), Some(""));
    assert d.prelude == [] || d.prelude == [Build(Some(""))];
    assert BuiltRef(index, Some("")) == c + "-";
    assert Extended(c, "") == c + "-";
    var p := PushSpec(index, Some(""), images, build, extraTags).value;
    assert p.actions == d.prelude + Publishing(d.working, refs);
    assert p.workingTag == d.working;
  }

  /** A configured tag that already ends with `-E` is not retagged: the
      command then pushes `img:tag` and never `img:tag-E`. */
  lemma ConfiguredTagAlreadyExtended(index: OperatorIndex, e: string, images: seq<string>,
                                     build: bool, extraTags: seq<string>)
    requires e != "" && EndsWith(index.tag, "-" + e)
    requires ConfiguredRef(index) in images && Extended(ConfiguredRef(index), e) !in images
    ensures PushSpec(index, Some(e), images, build, extraTags).value.workingTag == index.img + ":" + index.tag
  {
    var c := ConfiguredRef(index);
    assert c[|c| - |"-" + e|..] == index.tag[|index.tag| - |"-" + e|..];
  }

  /** Only `idx:v1` exists and the extension `ci` is requested with building
      disabled: the command does not fail; it prepares the retag to
      `idx:v1-ci` and pushes `idx:v1-ci`. */
  lemma FallbackExample()
    ensures PushSpec(OperatorIndex("idx", "v1"), Some("ci"), ["idx:v1"], false, [])
      == Ok(PushPlan([RetagConstructed("idx:v1", "idx:v1-ci"), RunPush("idx:v1-ci")], "idx:v1-ci"))
  {
    var c := ConfiguredRef(OperatorIndex("idx", "v1"));
    assert c == "idx:v1";
    assert !EndsWith(c, "-ci");
    assert Extended(c, "ci") == "idx:v1-ci";
    assert "idx:v1-ci" !in ["idx:v1"];
    assert Found(c, Some("ci"), ["idx:v1"]);
    assert Resolved(c, Some("ci"), ["idx:v1"]) == "idx:v1";
    assert NeedsRetag("idx:v1", Some("ci"));
    assert ExtraRefs("idx", []) == [];
    assert Publishing("idx:v1-ci", []) == [RunPush("idx:v1-ci")];
    assert Decide(OperatorIndex("idx", "v1"), Some("ci"), ["idx:v1"], false)
      == Ok(Decision([RetagConstructed("idx:v1", "idx:v1-ci")], "idx:v1-ci"));
    assert [RetagConstructed("idx:v1", "idx:v1-ci")] + [RunPush("idx:v1-ci")]
      == [RetagConstructed("idx:v1", "idx:v1-ci"), RunPush("idx:v1-ci")];
  }

  // ---------------------------------------------------------------------
  // A configured tag that already carries the extension

  /** As written, the test for "already extended" cannot tell a tag found by
      the extended search from a configured tag that happens to end in `-E`:
      with the configured tag `v1-ci` and the extension `ci`, finding
      `idx:v1-ci` keeps `idx:v1-ci`, while a build makes `idx:v1-ci-ci`. */
  lemma AlreadyExtendedCounterexample()
    ensures var index := OperatorIndex("idx", "v1-ci");
      PushSpec(index, Some("ci"), ["idx:v1-ci"], false, []).Ok?
      && PushSpec(index, Some("ci"), ["idx:v1-ci"], false, []).value.workingTag == "idx:v1-ci"
      && PushSpec(index, Some("ci"), [], true, []).Ok?
      && PushSpec(index, Some("ci"), [], true, []).value.workingTag == "idx:v1-ci-ci"
  {
    var index := OperatorIndex("idx", "v1-ci");
    var c := ConfiguredRef(index);
    assert c == "idx:v1-ci";
    assert Extended(c, "ci") == "idx:v1-ci-ci";
    assert "idx:v1-ci-ci" !in ["idx:v1-ci"];
    assert Resolved(c, Some("ci"), ["idx:v1-ci"]) == c;
    assert EndsWith(c, "-ci") by { assert c[|c| - 3..] == "-ci"; }
    assert !Found(c, Some("ci"), []);
    assert BuiltRef(index, Some("ci")) == "idx:v1-ci-ci";
  }

  /** The decision with the retag keyed to what the searches found: a found
      image is retagged for a non-empty extension exactly when the extended
      tag was not among the images. With a non-empty extension `E` the
      working tag is then always `img:tag-E`, found, retagged or built. */
  function IntendedDecide(index: OperatorIndex, extension: Option<string>, images: seq<string>,
                          build: bool): (r: Result<Decision, PushError>)
    ensures r.Err? <==> !build && !Found(ConfiguredRef(index), extension, images)
    ensures r.Ok? && extension.Some? && extension.value != "" ==>
      r.value.working == Extended(ConfiguredRef(index), extension.value)
  {
    var configured := ConfiguredRef(index);
    if !Found(configured, extension, images) then
      if build then Ok(Decision([Build(extension)], BuiltRef(index, extension)))
      else Err(ImageNotFound)
    else
      var resolved := Resolved(configured, extension, images);
      if extension.Some? && extension.value != "" && resolved == configured then
        var working := Extended(resolved, extension.value);
        Ok(Decision([RetagConstructed(resolved, working)], working))
      else
        Ok(Decision([], resolved))
  }

  /** The two decisions differ only when the configured tag itself ends in
      `-E` for a non-empty extension `E`. */
  lemma IntendedDecideAgrees(index: OperatorIndex, extension: Option<string>, images: seq<string>, build: bool)
    requires extension.Some? && extension.value != "" ==> !EndsWith(ConfiguredRef(index), "-" + extension.value)
    ensures IntendedDecide(index, extension, images, build) == Decide(index, extension, images, build)
  {
    var c := ConfiguredRef(index);
    if extension.Some? {
      ExtendedEndsWith(c, extension.value);
    }
  }
}
