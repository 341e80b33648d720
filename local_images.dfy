/** The images the container runtime holds locally, and whether a plan of
    the publish step can run against them: a tag command needs its source
    image and a push needs the image it pushes. A build adds the image it
    tags; a tag command adds its target; a prepared retag that is never
    started adds nothing. */
module LocalImages {
  import opened Results
  import opened IndexSettings
  import opened Publish

  /** The set of images present after one action. */
  function Apply(store: set<string>, index: OperatorIndex, a: Action): set<string>
  {
    match a
    case Build(extension) => store + {BuiltRef(index, extension)}
    case RunTag(_, dst) => store + {dst}
    case _ => store
  }

  /** Whether an action can succeed with the images present. */
  predicate Ready(store: set<string>, a: Action)
  {
    match a
    case RunTag(src, _) => src in store
    case RunPush(ref) => ref in store
    case _ => true
  }

  /** Every action of the plan, taken in order, finds the images it needs. */
  predicate Executable(store: set<string>, index: OperatorIndex, actions: seq<Action>)
    decreases |actions|
  {
    |actions| == 0 ||
    (Ready(store, actions[0]) && Executable(Apply(store, index, actions[0]), index, actions[1..]))
  }

  /** The images after the whole plan. */
  function After(store: set<string>, index: OperatorIndex, actions: seq<Action>): set<string>
    decreases |actions|
  {
    if |actions| == 0 then store else After(Apply(store, index, actions[0]), index, actions[1..])
  }

  function Elements(images: seq<string>): set<string>
  {
    set k | 0 <= k < |images| :: images[k]
  }

  /** The plan with its prepared retag actually run. */
  function WithRetagRun(actions: seq<Action>): seq<Action>
  {
    seq(|actions|, k requires 0 <= k < |actions| =>
      if actions[k].RetagConstructed? then RunTag(actions[k].src, actions[k].dst) else actions[k])
  }

  /** Tagging the same target twice leaves the same images as tagging it once. */
  lemma TagIsIdempotent(store: set<string>, index: OperatorIndex, src: string, dst: string)
    ensures Apply(Apply(store, index, RunTag(src, dst)), index, RunTag(src, dst))
      == Apply(store, index, RunTag(src, dst))
  {
  }

  lemma {:induction false} ExecutableAppend(store: set<string>, index: OperatorIndex, a: seq<Action>, b: seq<Action>)
    requires Executable(store, index, a)
    requires Executable(After(store, index, a), index, b)
    ensures Executable(store, index, a + b)
    decreases |a|
  {
    if |a| == 0 {
      assert a + b == b;
    } else {
      assert (a + b)[0] == a[0];
      assert (a + b)[1..] == a[1..] + b;
      ExecutableAppend(Apply(store, index, a[0]), index, a[1..], b);
    }
  }

  /** Tagging from a present image succeeds for every target and adds them all. */
  lemma {:induction false} TagActionsExecutable(store: set<string>, index: OperatorIndex, working: string, refs: seq<string>)
    requires working in store
    ensures Executable(store, index, TagActions(working, refs))
    ensures After(store, index, TagActions(working, refs)) == store + Elements(refs)
    decreases |refs|
  {
    var acts := TagActions(working, refs);
    if |refs| == 0 {
      assert Elements(refs) == {};
    } else {
      assert acts[0] == RunTag(working, refs[0]);
      assert acts[1..] == TagActions(working, refs[1..]);
      TagActionsExecutable(store + {refs[0]}, index, working, refs[1..]);
      assert Elements(refs) == {refs[0]} + Elements(refs[1..]) by {
        forall x | x in Elements(refs) ensures x in {refs[0]} + Elements(refs[1..]) {
          var k :| 0 <= k < |refs| && refs[k] == x;
          if k > 0 { assert refs[1..][k - 1] == x; }
        }
        forall x | x in Elements(refs[1..]) ensures x in Elements(refs) {
          var k :| 0 <= k < |refs[1..]| && refs[1..][k] == x;
          assert refs[k + 1] == x;
        }
      }
    }
  }

  /** Pushing present images succeeds. */
  lemma {:induction false} PushActionsExecutable(store: set<string>, index: OperatorIndex, refs: seq<string>)
    requires forall k :: 0 <= k < |refs| ==> refs[k] in store
    ensures Executable(store, index, PushActions(refs))
    decreases |refs|
  {
    if |refs| > 0 {
      var acts := PushActions(refs);
      assert acts[0] == RunPush(refs[0]);
      assert acts[1..] == PushActions(refs[1..]);
      PushActionsExecutable(store, index, refs[1..]);
    }
  }

  /** Tagging and pushing from a present working image always succeeds. */
  lemma PublishingExecutable(store: set<string>, index: OperatorIndex, working: string, refs: seq<string>)
    requires working in store
    ensures Executable(store, index, Publishing(working, refs))
  {
    TagActionsExecutable(store, index, working, refs);
    var after := After(store, index, TagActions(working, refs));
    var pushed := refs + [working];
    forall k | 0 <= k < |pushed| ensures pushed[k] in after {
      if k < |refs| { assert refs[k] in Elements(refs); }
    }
    PushActionsExecutable(after, index, pushed);
    ExecutableAppend(store, index, TagActions(working, refs), PushActions(pushed));
  }

  lemma WithRetagRunAppend(a: seq<Action>, b: seq<Action>)
    ensures WithRetagRun(a + b) == WithRetagRun(a) + WithRetagRun(b)
  {
  }

  lemma PublishingHasNoRetag(working: string, refs: seq<string>)
    ensures WithRetagRun(Publishing(working, refs)) == Publishing(working, refs)
  {
    PublishingOnlyTagsAndPushes(working, refs);
  }

  /** With the retag run, every tag and push of the publish step finds its
      image, whatever the inputs. */
  lemma CorrectedPushIsExecutable(index: OperatorIndex, extension: Option<string>, images: seq<string>,
                                  build: bool, extraTags: seq<string>)
    requires PushSpec(index, extension, images, build, extraTags).Ok?
    ensures Executable(Elements(images), index,
                       WithRetagRun(PushSpec(index, extension, images, build, extraTags).value.actions))
  {
    var store := Elements(images);
    var c := ConfiguredRef(index);
    var d := Decide(index, extension, images, build).value;
    var refs := ExtraRefs(index.img, extraTags);
    var p := PushSpec(index, extension, images, build, extraTags).value;
    assert p.actions == d.prelude + Publishing(d.working, refs);
    WithRetagRunAppend(d.prelude, Publishing(d.working, refs));
    PublishingHasNoRetag(d.working, refs);
    var pre := WithRetagRun(d.prelude);
    if !Found(c, extension, images) {
      assert pre == [Build(extension)];
      assert After(store, index, pre) == store + {d.working} by {
        assert pre[1..] == [];
      }
      assert Executable(store, index, pre) by {
        assert pre[1..] == [];
      }
      PublishingExecutable(After(store, index, pre), index, d.working, refs);
      ExecutableAppend(store, index, pre, Publishing(d.working, refs));
    } else {
      var resolved := Resolved(c, extension, images);
      assert resolved in store by {
        var k :| 0 <= k < |images| && images[k] == resolved;
      }
      if NeedsRetag(resolved, extension) {
        assert pre == [RunTag(resolved, d.working)];
        assert After(store, index, pre) == store + {d.working} by {
          assert pre[1..] == [];
        }
        assert Executable(store, index, pre) by {
          assert pre[1..] == [];
        }
        PublishingExecutable(After(store, index, pre), index, d.working, refs);
        ExecutableAppend(store, index, pre, Publishing(d.working, refs));
      } else {
        assert pre == [];
        assert pre + Publishing(d.working, refs) == Publishing(d.working, refs);
        PublishingExecutable(store, index, d.working, refs);
      }
    }
  }

  /** As written, the plan can run whenever no retag is prepared. */
  lemma AsWrittenExecutableWithoutRetag(index: OperatorIndex, extension: Option<string>, images: seq<string>,
                                        build: bool, extraTags: seq<string>)
    requires PushSpec(index, extension, images, build, extraTags).Ok?
    requires forall k :: 0 <= k < |PushSpec(index, extension, images, build, extraTags).value.actions| ==>
      !PushSpec(index, extension, images, build, extraTags).value.actions[k].RetagConstructed?
    ensures Executable(Elements(images), index, PushSpec(index, extension, images, build, extraTags).value.actions)
  {
    var acts := PushSpec(index, extension, images, build, extraTags).value.actions;
    CorrectedPushIsExecutable(index, extension, images, build, extraTags);
    assert WithRetagRun(acts) == acts;
  }

  /** As written, the prepared retag is never started: with only `idx:v1`
      present and the extension `ci`, the plan pushes `idx:v1-ci`, which no
      step has created. */
  lemma RetagNotRunCounterexample()
    ensures var index := OperatorIndex("idx", "v1");
      var p := PushSpec(index, Some("ci"), ["idx:v1"], false, []);
      p.Ok? && !Executable(Elements(["idx:v1"]), index, p.value.actions)
  {
    var index := OperatorIndex("idx", "v1");
    FallbackExample();
    var acts := [RetagConstructed("idx:v1", "idx:v1-ci"), RunPush("idx:v1-ci")];
    var store := Elements(["idx:v1"]);
    assert store == {"idx:v1"};
    assert "idx:v1-ci" != "idx:v1";
    assert acts[1..] == [RunPush("idx:v1-ci")];
    assert !Executable(Apply(store, index, acts[0]), index, acts[1..]);
  }

  /** As written, every plan that prepares a retag fails: the retag leaves
      the images unchanged, the extended working tag is not among them, and
      the first tag or push after it needs exactly that tag. */
  lemma AsWrittenRetagNeverExecutable(index: OperatorIndex, extension: Option<string>, images: seq<string>,
                                      build: bool, extraTags: seq<string>)
    requires PushSpec(index, extension, images, build, extraTags).Ok?
    requires exists k :: (0 <= k < |PushSpec(index, extension, images, build, extraTags).value.actions| &&
      PushSpec(index, extension, images, build, extraTags).value.actions[k].RetagConstructed?)
    ensures !Executable(Elements(images), index, PushSpec(index, extension, images, build, extraTags).value.actions)
  {
    var store := Elements(images);
    var c := ConfiguredRef(index);
    var d := Decide(index, extension, images, build).value;
    var refs := ExtraRefs(index.img, extraTags);
    var acts := PushSpec(index, extension, images, build, extraTags).value.actions;
    assert acts == d.prelude + Publishing(d.working, refs);
    PublishingOnlyTagsAndPushes(d.working, refs);
    var resolved := Resolved(c, extension, images);
    assert Found(c, extension, images) && NeedsRetag(resolved, extension) by {
      var k :| 0 <= k < |acts| && acts[k].RetagConstructed?;
    }
    var e := extension.value;
    assert resolved == c by {
      if Extended(c, e) in images {
        ExtendedEndsWith(c, e);
      }
    }
    assert d.working == Extended(c, e);
    assert d.working !in store;
    assert acts[0] == RetagConstructed(c, d.working);
    assert Apply(store, index, acts[0]) == store;
    assert acts[1..] == Publishing(d.working, refs);
    assert !Ready(store, acts[1]);
  }
}
