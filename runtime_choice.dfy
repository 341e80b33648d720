/** Choice of the container runtime handed to the index builder and used to
    list, tag and push images (`OperatorIndexSettings._determine_runtime`).
    The output lines of `which docker` and `which podman` and the
    "is a symbolic link" test of the file system are inputs. */
module RuntimeChoice {
  import opened Results
  import opened Text

  /** The two candidate runtimes, in the order they are tried. */
  datatype Runtime = Docker | Podman

  datatype RuntimeError = NoRuntimeFound

  /** The executable name, which is also the `--build-tool` value and the
      first word of every tag and push command. */
  function RuntimeName(rt: Runtime): string
  {
    match rt
    case Docker => "docker"
    case Podman => "podman"
  }

  /** A line printed by `which name` is accepted when it ends in `/name` and
      is not a symbolic link. */
  predicate Accepts(line: string, name: string, isLink: string -> bool)
  {
    EndsWith(line, "/" + name) && !isLink(line)
  }

  predicate AnyAccepted(lines: seq<string>, name: string, isLink: string -> bool)
  {
    exists k :: 0 <= k < |lines| && Accepts(lines[k], name, isLink)
  }

  /** Docker wins when any of its lines is accepted, podman is tried only
      after every docker line was rejected, and with neither the choice fails. */
  method DetermineRuntime(dockerLines: seq<string>, podmanLines: seq<string>, isLink: string -> bool)
    returns (r: Result<Runtime, RuntimeError>)
    ensures r == Ok(Docker) <==> AnyAccepted(dockerLines, "docker", isLink)
    ensures r == Ok(Podman) <==>
      !AnyAccepted(dockerLines, "docker", isLink) && AnyAccepted(podmanLines, "podman", isLink)
    ensures r == Err(NoRuntimeFound) <==>
      !AnyAccepted(dockerLines, "docker", isLink) && !AnyAccepted(podmanLines, "podman", isLink)
  {
    for k := 0 to |dockerLines|
      invariant forall j :: 0 <= j < k ==> !Accepts(dockerLines[j], "docker", isLink)
    {
      if EndsWith(dockerLines[k], "/docker") && !isLink(dockerLines[k]) {
        return Ok(Docker);
      }
    }
    for k := 0 to |podmanLines|
      invariant forall j :: 0 <= j < k ==> !Accepts(podmanLines[j], "podman", isLink)
    {
      if EndsWith(podmanLines[k], "/podman") && !isLink(podmanLines[k]) {
        return Ok(Podman);
      }
    }
    return Err(NoRuntimeFound);
  }
}
