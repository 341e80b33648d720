/** The settings read from the configuration (`OperatorBundle`,
    `OperatorIndex`, `OperatorIndexSettings`) and the command line handed to
    the external index builder (`generate_command_line` and the tag-extension
    suffix added by `do_build`). */
module IndexSettings {
  import opened Results
  import opened Text
  import opened RuntimeChoice

  /** One operator bundle that goes into the catalog index. */
  datatype OperatorBundle = OperatorBundle(name: string, img: string, tag: string)

  /** The base identity of the catalog index image. */
  datatype OperatorIndex = OperatorIndex(img: string, tag: string)

  /** The bundles, in their configured order, and the index. */
  datatype Settings = Settings(bundles: seq<OperatorBundle>, index: OperatorIndex)

  /** The fully qualified reference `img:tag`. */
  function Ref(img: string, tag: string): string
  {
    img + ":" + tag
  }

  /** The reference the configuration names for the index. */
  function ConfiguredRef(index: OperatorIndex): string
  {
    Ref(index.img, index.tag)
  }

  function BundleRefs(bundles: seq<OperatorBundle>): seq<string>
  {
    seq(|bundles|, k requires 0 <= k < |bundles| => Ref(bundles[k].img, bundles[k].tag))
  }

  /** The value of `--bundles`: every bundle reference, comma separated. */
  function BundlesArg(bundles: seq<OperatorBundle>): string
  {
    Join(',', BundleRefs(bundles))
  }

  /** The arguments appended to the builder's path: they start with a blank,
      which keeps them apart from that path, and end with `--tag` and the
      configured index reference. */
  function GenerateCommandLine(settings: Settings, rt: Runtime): (r: string)
    ensures |r| > 0 && r[0] == ' '
    ensures EndsWith(r, " --tag " + ConfiguredRef(settings.index))
  {
    var head := " index add --build-tool " + RuntimeName(rt) + " --bundles " + BundlesArg(settings.bundles);
    EndsWithAppended(head, " --tag " + ConfiguredRef(settings.index));
    assert head + (" --tag " + ConfiguredRef(settings.index)) == head + " --tag " + ConfiguredRef(settings.index);
    head + " --tag " + ConfiguredRef(settings.index)
  }

  /** What `do_build` appends to the command when a tag extension is given. */
  function TagSuffix(extension: Option<string>): string
  {
    if extension.Some? then "-" + extension.value else ""
  }

  /** The whole command `do_build` runs. It starts with the builder's path,
      and since `--tag` and its value close the argument string, the suffix
      for an extension lands on the index tag: the command ends with `--tag`
      and the reference the build produces. */
  function BuildCommand(opmPath: string, settings: Settings, rt: Runtime, extension: Option<string>): (r: string)
    ensures |r| > |opmPath| && r[..|opmPath|] == opmPath && r[|opmPath|] == ' '
    ensures EndsWith(r, " --tag " + BuiltRef(settings.index, extension))
  {
    var args := GenerateCommandLine(settings, rt);
    var x := TagSuffix(extension);
    EndsWithExtended(opmPath + args, " --tag " + ConfiguredRef(settings.index), x);
    assert (" --tag " + ConfiguredRef(settings.index)) + x == " --tag " + BuiltRef(settings.index, extension);
    assert (opmPath + args + x)[..|opmPath|] == opmPath;
    opmPath + args + x
  }

  /** The local image a successful build leaves behind. */
  function BuiltRef(index: OperatorIndex, extension: Option<string>): string
  {
    ConfiguredRef(index) + TagSuffix(extension)
  }

  /** A word the command-line splitter keeps whole: non-empty, without blanks,
      quotes or backslashes. */
  predicate PlainWord(w: string)
  {
    |w| > 0 && forall k :: 0 <= k < |w| ==> w[k] !in " \t\n\r'\"\\"
  }

  /** The argument vector the builder receives: `--tag` comes last, so the
      suffix for a tag extension lands on the index tag and on nothing else. */
  lemma BuildArgv(opmPath: string, settings: Settings, rt: Runtime, extension: Option<string>)
    requires PlainWord(opmPath)
    requires PlainWord(BundlesArg(settings.bundles))
    requires PlainWord(BuiltRef(settings.index, extension))
    ensures Split(' ', BuildCommand(opmPath, settings, rt, extension))
      == [opmPath, "index", "add", "--build-tool", RuntimeName(rt),
          "--bundles", BundlesArg(settings.bundles), "--tag", BuiltRef(settings.index, extension)]
  {
    var r := RuntimeName(rt);
    var b := BundlesArg(settings.bundles);
    var c := ConfiguredRef(settings.index);
    var x := TagSuffix(extension);
    CommandWords(opmPath, r, b, c, x);
    assert ' ' !in r by { assert rt.Docker? || rt.Podman?; }
    PlainWordHasNoBlank(opmPath);
    PlainWordHasNoBlank(b);
    PlainWordHasNoBlank(c + x);
    SplitBuildWords(opmPath, r, b, c + x);
  }

  lemma PlainWordHasNoBlank(w: string)
    requires PlainWord(w)
    ensures ' ' !in w
  {
  }

  /** The words of a build command, read back. */
  lemma SplitBuildWords(o: string, r: string, b: string, t: string)
    requires ' ' !in o && ' ' !in r && ' ' !in b && ' ' !in t
    ensures Split(' ', o + " " + ("index" + " " + ("add" + " " + ("--build-tool" + " " + (r + " " +
         ("--bundles" + " " + (b + " " + ("--tag" + " " + t))))))))
      == [o, "index", "add", "--build-tool", r, "--bundles", b, "--tag", t]
  {
    var s4 := r + " " + ("--bundles" + " " + (b + " " + ("--tag" + " " + t)));
    assert Split(' ', s4) == [r, "--bundles", b, "--tag", t] by {
      SplitWhole(' ', t);
      SplitFourWords(r, "--bundles", b, "--tag", t);
    }
    SplitFourWords(o, "index", "add", "--build-tool", s4);
  }

  /** Four blank-free words in front of a rest split off one by one. */
  lemma SplitFourWords(w1: string, w2: string, w3: string, w4: string, rest: string)
    requires ' ' !in w1 && ' ' !in w2 && ' ' !in w3 && ' ' !in w4
    ensures Split(' ', w1 + " " + (w2 + " " + (w3 + " " + (w4 + " " + rest))))
      == [w1, w2, w3, w4] + Split(' ', rest)
  {
    var t := Split(' ', rest);
    var s3 := w4 + " " + rest;
    var s2 := w3 + " " + s3;
    var s1 := w2 + " " + s2;
    assert Split(' ', s3) == [w4] + t by { SplitWord(' ', w4, rest); }
    assert Split(' ', s2) == [w3] + ([w4] + t) by { SplitWord(' ', w3, s3); }
    assert Split(' ', s1) == [w2] + ([w3] + ([w4] + t)) by { SplitWord(' ', w2, s2); }
    SplitWord(' ', w1, s1);
    assert [w1] + ([w2] + ([w3] + ([w4] + t))) == [w1, w2, w3, w4] + t;
  }

  /** The build command regrouped word by word. */
  lemma CommandWords(opmPath: string, r: string, b: string, c: string, x: string)
    ensures opmPath + (" index add --build-tool " + r + " --bundles " + b + " --tag " + c) + x
      == opmPath + " " + ("index" + " " + ("add" + " " + ("--build-tool" + " " + (r + " " +
         ("--bundles" + " " + (b + " " + ("--tag" + " " + (c + x))))))))
  {
    var t := c + x;
    var s7 := "--tag" + " " + t;
    var s6 := b + " " + s7;
    var s5 := "--bundles" + " " + s6;
    var s4 := r + " " + s5;
    var s3 := "--build-tool" + " " + s4;
    var s2 := "add" + " " + s3;
    var s1 := "index" + " " + s2;
    var p3 := " index add --build-tool " + r + " --bundles " + b;
    var p2 := " index add --build-tool " + r + " --bundles ";
    var p1 := " index add --build-tool " + r;
    // From the right: each step moves one word into the tail.
    assert p3 + " --tag " + c + x == p3 + (" --tag " + t) by { Regroup3(p3 + " --tag ", c, x); Regroup3(p3, " --tag ", t); }
    assert " --tag " + t == " " + s7 by { Regroup3(" ", "--tag ", t); Regroup3("--tag", " ", t); }
    assert p3 + (" " + s7) == p2 + s6 by { Regroup3(p2, b, " " + s7); Regroup3(b, " ", s7); }
    assert p2 + s6 == p1 + (" " + s5) by { Regroup3(p1, " --bundles ", s6); Regroup3(" ", "--bundles ", s6); Regroup3("--bundles", " ", s6); }
    assert p1 + (" " + s5) == " index add --build-tool " + s4 by { Regroup3(" index add --build-tool ", r, " " + s5); Regroup3(r, " ", s5); }
    assert " index add --build-tool " + s4 == " " + s1 by { LiteralHead(s4); }
    assert opmPath + (p3 + " --tag " + c) + x == opmPath + (p3 + " --tag " + c + x) by { Regroup3(opmPath, p3 + " --tag " + c, x); }
    assert opmPath + (" " + s1) == opmPath + " " + s1 by { Regroup3(opmPath, " ", s1); }
  }

  lemma Regroup3(a: string, b: string, c: string)
    ensures a + b + c == a + (b + c)
  {
  }

  /** The three leading words of the builder arguments, one at a time. */
  lemma LiteralHead(s4: string)
    ensures " index add --build-tool " + s4 == " " + ("index" + " " + ("add" + " " + ("--build-tool" + " " + s4)))
  {
    assert " index add --build-tool " == " " + "index" + " " + "add" + " " + "--build-tool" + " ";
  }

  /** The bundle list can be read back from `--bundles`, in order, as long
      as no image or tag contains a comma. */
  lemma BundlesRoundTrip(bundles: seq<OperatorBundle>)
    requires |bundles| > 0
    requires forall k :: 0 <= k < |bundles| ==> ',' !in bundles[k].img && ',' !in bundles[k].tag
    ensures |Split(',', BundlesArg(bundles))| == |bundles|
    ensures forall k :: 0 <= k < |bundles| ==>
      Split(',', BundlesArg(bundles))[k] == bundles[k].img + ":" + bundles[k].tag
  {
    var refs := BundleRefs(bundles);
    forall k | 0 <= k < |refs| ensures ',' !in refs[k] {
      assert refs[k] == bundles[k].img + ":" + bundles[k].tag;
    }
    SplitJoin(',', refs);
  }

  /** With an extension `E` the command is the plain one plus `-E`, and the
      image it builds is `img:tag-E`. */
  lemma ExtensionAppendsToCommand(opmPath: string, settings: Settings, rt: Runtime, e: string)
    ensures BuildCommand(opmPath, settings, rt, Some(e)) == BuildCommand(opmPath, settings, rt, None) + "-" + e
    ensures BuiltRef(settings.index, Some(e)) == settings.index.img + ":" + settings.index.tag + "-" + e
  {
  }

  /** The single-bundle example: one bundle `a:1`, index `idx:v1`, docker. */
  lemma CommandLineExample()
    ensures GenerateCommandLine(
      Settings([OperatorBundle("a", "a", "1")], OperatorIndex("idx", "v1")), Docker)
      == " index add --build-tool docker --bundles a:1 --tag idx:v1"
  {
    var bundles := [OperatorBundle("a", "a", "1")];
    var refs := BundleRefs(bundles);
    assert |refs| == 1 && refs[0] == "a:1";
    assert refs == ["a:1"];
    assert BundlesArg(bundles) == "a:1";
    assert ConfiguredRef(OperatorIndex("idx", "v1")) == "idx:v1";
    assert " index add --build-tool " + "docker" == " index add --build-tool docker";
    assert " index add --build-tool docker" + " --bundles " == " index add --build-tool docker --bundles ";
    assert " index add --build-tool docker --bundles " + "a:1" == " index add --build-tool docker --bundles a:1";
    assert " index add --build-tool docker --bundles a:1" + " --tag " == " index add --build-tool docker --bundles a:1 --tag ";
    assert " index add --build-tool docker --bundles a:1 --tag " + "idx:v1"
      == " index add --build-tool docker --bundles a:1 --tag idx:v1";
  }
}
