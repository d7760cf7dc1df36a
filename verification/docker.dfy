/** `get_docker_info`: the container counts and summaries the dashboard
    shows, shaped from what the Docker client returned. */
module Docker {
  import opened Py

  /** The attributes the server reads from one container object. */
  datatype Container = Container(name: string, status: string, imageTags: seq<string>)

  /** What listing all containers through the Docker client gave: the
      containers in the client's order, or the message of the exception
      raised while connecting or listing. */
  datatype Listing = Listed(containers: seq<Container>) | ListFailed(message: string)

  /** One entry of `container_list`. */
  datatype Summary = Summary(name: string, status: string, image: string)

  /** The dictionary `get_docker_info` returns; `containerList` and `error`
      are None where the dictionary has no such key. */
  datatype DockerInfo = DockerInfo(status: string, containers: nat, running: nat,
                                   containerList: Option<seq<Summary>>, error: Option<string>)

  /** `[c for c in containers if c.status == 'running']`. */
  function RunningOnes(cs: seq<Container>): (r: seq<Container>)
    ensures |r| <= |cs|
    ensures forall c :: c in r ==> c in cs && c.status == "running"
    ensures forall c :: c in cs && c.status == "running" ==> c in r
  {
    if cs == [] then []
    else
      var init := RunningOnes(cs[..|cs| - 1]);
      var last := cs[|cs| - 1];
      assert forall c :: c in cs[..|cs| - 1] ==> c in cs;
      assert forall c :: c in cs ==> c in cs[..|cs| - 1] || c == last;
      if last.status == "running" then init + [last] else init
  }

  /** The positions of running containers. */
  function RunningPositions(cs: seq<Container>): set<nat> {
    set i: nat | i < |cs| && cs[i].status == "running"
  }

  /** The running count is the number of positions holding a running
      container. */
  lemma {:induction false} RunningCount(cs: seq<Container>)
    ensures |RunningOnes(cs)| == |RunningPositions(cs)|
  {
    if cs != [] {
      var n := |cs| - 1;
      var init := cs[..n];
      RunningCount(init);
      PositionsStep(cs);
      assert |RunningOnes(cs)| == |RunningOnes(init)| + (if cs[n].status == "running" then 1 else 0);
    }
  }

  lemma PositionsStep(cs: seq<Container>)
    requires cs != []
    ensures var n := |cs| - 1;
            |RunningPositions(cs)| == |RunningPositions(cs[..n])| + (if cs[n].status == "running" then 1 else 0)
  {
    var n := |cs| - 1;
    var before := RunningPositions(cs[..n]);
    assert n !in before;
    if cs[n].status == "running" {
      assert RunningPositions(cs) == before + {n};
    } else {
      assert RunningPositions(cs) == before;
    }
  }

  /** The `container_list` entry of one container: its first image tag, or
      "unknown" for an untagged image. */
  function Summarize(c: Container): (s: Summary)
    ensures s.name == c.name && s.status == c.status
    ensures c.imageTags != [] ==> s.image == c.imageTags[0]
    ensures s.image == "unknown" <==> c.imageTags == [] || c.imageTags[0] == "unknown"
  {
    Summary(c.name, c.status, if c.imageTags != [] then c.imageTags[0] else "unknown")
  }

  /** `get_docker_info`: never more running containers than containers, and
      an error exactly when the client failed. */
  function GetDockerInfo(listing: Listing): (info: DockerInfo)
    ensures info.running <= info.containers
    ensures info.error.Some? <==> listing.ListFailed?
    ensures listing.Listed? ==> info.containers == |listing.containers| && info.status == "running"
  {
    match listing
    case Listed(cs) =>
      DockerInfo("running", |cs|, |RunningOnes(cs)|,
                 Some(seq(|cs|, i requires 0 <= i < |cs| => Summarize(cs[i]))), None)
    case ListFailed(message) =>
      DockerInfo("stopped", 0, 0, None, Some(message))
  }

  /** The report never counts more running containers than containers; on
      success it counts every container and every running one, and lists one
      summary per container in the client's order; on failure it reports
      "stopped" with both counts zero and the exception's message. */
  lemma DockerInfoFacts(listing: Listing)
    ensures var info := GetDockerInfo(listing);
            && info.running <= info.containers
            && (info.error.Some? <==> listing.ListFailed?)
            && (info.containerList.Some? <==> listing.Listed?)
    ensures listing.ListFailed? ==>
              GetDockerInfo(listing) == DockerInfo("stopped", 0, 0, None, Some(listing.message))
    ensures listing.Listed? ==>
              var info := GetDockerInfo(listing);
              var cs := listing.containers;
              && info.status == "running"
              && info.containers == |cs|
              && info.running == |RunningPositions(cs)|
              && |info.containerList.value| == |cs|
              && forall i :: 0 <= i < |cs| ==> info.containerList.value[i] == Summarize(cs[i])
  {
    if listing.Listed? {
      RunningCount(listing.containers);
    }
  }
}
