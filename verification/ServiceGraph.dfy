/**
 Topic names, and how the graph functions recover services from the topics of
 their endpoints.
 */
module ServiceGraph {
  import opened Options
  import opened Strings
  import opened TypeNames

  /** The size of the buffer for DDS topic names, with the closing zero. */
  const NAME_SIZE: nat := 264

  /** dds_topic_name: ROS topics get the prefix "rt". */
  function DdsTopicName(rosName: string, native: bool): Option<string> {
    var prefix := if native then "" else "rt";
    if |prefix| + |rosName| + 1 > NAME_SIZE then None else Some(prefix + rosName)
  }

  /** The buffer holds 263 characters, two of which the prefix takes. */
  lemma DdsTopicNames(rosName: string)
    ensures DdsTopicName(rosName, true) == if |rosName| <= 263 then Some(rosName) else None
    ensures DdsTopicName(rosName, false) == if |rosName| <= 261 then Some("rt" + rosName) else None
  {
    assert "" + rosName == rosName;
  }

  /** The names service_topics accepts. */
  predicate IsServiceName(name: string) {
    |name| >= 2 && name[0] == '/'
  }

  function RequestTopic(name: string): string {
    "/rq" + name + "Request"
  }

  function ReplyTopic(name: string): string {
    "/rr" + name + "Reply"
  }

  /** The service whose endpoint has the topic, for the prefix and suffix of the
      kind of endpoint. */
  function ServiceOf(topic: string, prefix: string, suffix: string): Option<string> {
    if |topic| <= |prefix| + |suffix| || !StartsWith(topic, prefix) || !EndsWith(topic, suffix) then None
    else Some(topic[|prefix|..|topic| - |suffix|])
  }

  lemma ServiceOfIff(topic: string, prefix: string, suffix: string, name: string)
    ensures ServiceOf(topic, prefix, suffix) == Some(name) <==> name != "" && topic == prefix + name + suffix
  {
    if ServiceOf(topic, prefix, suffix) == Some(name) {
      assert topic == topic[..|prefix|] + topic[|prefix|..|topic| - |suffix|] + topic[|topic| - |suffix|..];
    }
    if name != "" && topic == prefix + name + suffix {
      assert topic[..|prefix|] == prefix && topic[|topic| - |suffix|..] == suffix;
      assert topic[|prefix|..|topic| - |suffix|] == name;
    }
  }

  /** The graph recovers a service's name from its topics, and takes no request
      topic for a reply topic or the other way around. */
  lemma ServiceNameRecovered(name: string)
    requires IsServiceName(name)
    ensures ServiceOf("rt" + RequestTopic(name), "rt/rq", "Request") == Some(name)
    ensures ServiceOf("rt" + ReplyTopic(name), "rt/rr", "Reply") == Some(name)
    ensures ServiceOf("rt" + RequestTopic(name), "rt/rr", "Reply").None?
    ensures ServiceOf("rt" + ReplyTopic(name), "rt/rq", "Request").None?
  {
    var request, reply := "rt" + RequestTopic(name), "rt" + ReplyTopic(name);
    assert request == "rt/rq" + name + "Request";
    assert reply == "rt/rr" + name + "Reply";
    ServiceOfIff(request, "rt/rq", "Request", name);
    ServiceOfIff(reply, "rt/rr", "Reply", name);
    StartMatches(request, "rt/rr", 4);
    StartMatches(reply, "rt/rq", 4);
  }

  /** service_topics: the topics from which the graph recovers the name, which
      determines them. */
  method ServiceTopics(name: string) returns (topics: Option<(string, string)>)
    ensures topics == if |name| >= 2 && name[0] == '/' then Some(("/rq" + name + "Request", "/rr" + name + "Reply"))
                      else None
    ensures topics.Some? ==> ServiceOf("rt" + topics.value.0, "rt/rq", "Request") == Some(name)
    ensures topics.Some? ==> ServiceOf("rt" + topics.value.1, "rt/rr", "Reply") == Some(name)
  {
    if name == "" || name[0] != '/' || |name| == 1 {
      return None;
    }
    ServiceNameRecovered(name);
    return Some(("/rq" + name + "Request", "/rr" + name + "Reply"));
  }

  /** Different services have different topics, and share none. */
  lemma ServiceTopicsInjective(a: string, b: string)
    requires IsServiceName(a) && IsServiceName(b)
    ensures RequestTopic(a) == RequestTopic(b) ==> a == b
    ensures ReplyTopic(a) == ReplyTopic(b) ==> a == b
    ensures RequestTopic(a) != ReplyTopic(b)
  {
    ServiceNameRecovered(a);
    ServiceNameRecovered(b);
  }

  /** demangle_dds_topic; the empty string stands for "not a ROS topic". */
  function DemangledTopic(ddsTopic: string): string {
    if !StartsWith(ddsTopic, "rt/") then ""
    else
      var rosTopic := ddsTopic[2..];
      if StartsWith(rosTopic, "/rq") || StartsWith(rosTopic, "/rr") then "" else rosTopic
  }

  /** The DDS topics that are listed, and under which name. */
  lemma DemangledTopicIff(ddsTopic: string, name: string)
    requires name != ""
    ensures DemangledTopic(ddsTopic) == name <==>
              && ddsTopic == "rt" + name && name[0] == '/'
              && !StartsWith(name, "/rq") && !StartsWith(name, "/rr")
  {
    if StartsWith(ddsTopic, "rt/") {
      assert ddsTopic[..3] == "rt/";
      assert ddsTopic == ddsTopic[..3] + ddsTopic[3..];
      assert ddsTopic == "rt" + ddsTopic[2..];
    }
    if ddsTopic == "rt" + name && name[0] == '/' {
      assert ddsTopic[2..] == name;
      assert ddsTopic[..3] == "rt/";
    }
  }

  /**
   An absolute ROS topic that fits is listed under its own name exactly when it
   does not begin like a service topic: any topic that begins with "/rq" or
   "/rr" is hidden.
   */
  lemma TopicRoundTrip(rosTopic: string)
    requires StartsWith(rosTopic, "/") && |rosTopic| + 3 <= NAME_SIZE
    ensures DdsTopicName(rosTopic, false).Some?
    ensures DemangledTopic(DdsTopicName(rosTopic, false).value) == rosTopic
       <==> !StartsWith(rosTopic, "/rq") && !StartsWith(rosTopic, "/rr")
  {
    var dds := "rt" + rosTopic;
    assert dds[2..] == rosTopic;
    assert dds[..3] == "rt" + rosTopic[..1];
  }

  /** A ROS topic is taken for a request topic exactly when it has the form of
      one, whether or not the part in between is the name of a service. */
  lemma TopicTakenForRequest(rosTopic: string, name: string)
    ensures ServiceOf("rt" + rosTopic, "rt/rq", "Request") == Some(name)
       <==> name != "" && rosTopic == RequestTopic(name)
  {
    ServiceOfIff("rt" + rosTopic, "rt/rq", "Request", name);
    assert ("rt" + rosTopic)[2..] == rosTopic;
    assert ("rt/rq" + name + "Request")[2..] == RequestTopic(name);
    assert "rt/rq" + name + "Request" == "rt" + RequestTopic(name);
  }

  type NamesAndTypes = map<string, set<string>>

  predicate Lists(listing: NamesAndTypes, name: string, kind: string) {
    name in listing && kind in listing[name]
  }

  predicate NoneEmpty(listing: NamesAndTypes) {
    forall name | name in listing :: listing[name] != {}
  }

  function Insert(listing: NamesAndTypes, name: string, kind: string): (inserted: NamesAndTypes)
    requires NoneEmpty(listing)
    ensures NoneEmpty(inserted)
    ensures forall n, k :: Lists(inserted, n, k) <==> Lists(listing, n, k) || (n == name && k == kind)
  {
    listing[name := (if name in listing then listing[name] else {}) + {kind}]
  }

  /** What the graph cache returns: topics, each with its types. */
  datatype Endpoints = Endpoints(topics: seq<string>, types: seq<seq<string>>)
  {
    ghost predicate Valid() {
      |topics| == |types|
    }

    /** Topic `i` belongs to the service and its type `t` names the kind. */
    predicate Shows(i: nat, t: nat, prefix: string, suffix: string, name: string, kind: string)
      requires Valid() && i < |topics| && t < |types[i]|
    {
      ServiceOf(topics[i], prefix, suffix) == Some(name) && ServiceType(Demangled(types[i][t])) == kind
    }

    /** Some endpoint with the prefix and suffix shows the service. */
    ghost predicate Offers(prefix: string, suffix: string, name: string, kind: string)
      requires Valid()
    {
      exists i, t | 0 <= i < |topics| && 0 <= t < |types[i]| :: Shows(i, t, prefix, suffix, name, kind)
    }
  }

  /** An endpoint shows a service by its topic's form, whichever of the topic's
      types names the kind. */
  lemma OffersIff(endpoints: Endpoints, prefix: string, suffix: string, name: string, kind: string)
    requires endpoints.Valid()
    ensures endpoints.Offers(prefix, suffix, name, kind) <==>
              exists i, t | 0 <= i < |endpoints.topics| && 0 <= t < |endpoints.types[i]| ::
                && name != "" && endpoints.topics[i] == prefix + name + suffix
                && ServiceType(Demangled(endpoints.types[i][t])) == kind
  {
    hide ServiceOf, ServiceType, Demangled;
    forall i, t | 0 <= i < |endpoints.topics| && 0 <= t < |endpoints.types[i]|
      ensures endpoints.Shows(i, t, prefix, suffix, name, kind) <==>
                && name != "" && endpoints.topics[i] == prefix + name + suffix
                && ServiceType(Demangled(endpoints.types[i][t])) == kind
    {
      ServiceOfIff(endpoints.topics[i], prefix, suffix, name);
    }
  }

  /** extract_service_topics. */
  method ExtractServiceTopics(endpoints: Endpoints, prefix: string, suffix: string) returns (result: NamesAndTypes)
    requires endpoints.Valid()
    ensures NoneEmpty(result)
    ensures forall n, k :: Lists(result, n, k) <==> endpoints.Offers(prefix, suffix, n, k)
  {
    hide ServiceOf, Demangled, ServiceType;
    result := map[];
    for index := 0 to |endpoints.topics|
      invariant NoneEmpty(result)
      invariant forall n, k :: Lists(result, n, k) <==>
                  exists i, t | 0 <= i < index && 0 <= t < |endpoints.types[i]| ::
                    endpoints.Shows(i, t, prefix, suffix, n, k)
    {
      var service := ServiceOf(endpoints.topics[index], prefix, suffix);
      if service.Some? {
        ghost var before := result;
        for typeIndex := 0 to |endpoints.types[index]|
          invariant NoneEmpty(result)
          invariant forall n, k :: Lists(result, n, k) <==>
                      || Lists(before, n, k)
                      || exists t | 0 <= t < typeIndex :: endpoints.Shows(index, t, prefix, suffix, n, k)
        {
          var kind := DemangleDdsServiceType(endpoints.types[index][typeIndex]);
          result := Insert(result, service.value, kind);
          assert endpoints.Shows(index, typeIndex, prefix, suffix, service.value, kind);
        }
      }
    }
  }

  /** intersect_services. */
  method IntersectServices(first: NamesAndTypes, second: NamesAndTypes) returns (result: NamesAndTypes)
    ensures NoneEmpty(result)
    ensures forall n, k :: Lists(result, n, k) <==> Lists(first, n, k) && Lists(second, n, k)
  {
    result := map[];
    var names := first.Keys;
    while names != {}
      invariant NoneEmpty(result) && names <= first.Keys
      invariant forall n, k :: Lists(result, n, k) <==> n !in names && Lists(first, n, k) && Lists(second, n, k)
      decreases names
    {
      var name :| name in names;
      names := names - {name};
      if name in second {
        ghost var before := result;
        var kinds := first[name];
        while kinds != {}
          invariant NoneEmpty(result) && kinds <= first[name]
          invariant forall n, k :: Lists(result, n, k) <==>
                      || Lists(before, n, k)
                      || (n == name && k !in kinds && Lists(first, n, k) && Lists(second, n, k))
          decreases kinds
        {
          var kind :| kind in kinds;
          kinds := kinds - {kind};
          if kind in second[name] {
            result := Insert(result, name, kind);
          }
        }
      }
    }
  }

  /** A service is listed, with a type, exactly when its request endpoints and
      its reply endpoints both show it with that type. */
  method ListServices(requests: Endpoints, replies: Endpoints) returns (result: NamesAndTypes)
    requires requests.Valid() && replies.Valid()
    ensures NoneEmpty(result)
    ensures forall n, k :: Lists(result, n, k) <==>
              requests.Offers("rt/rq", "Request", n, k) && replies.Offers("rt/rr", "Reply", n, k)
  {
    var requested := ExtractServiceTopics(requests, "rt/rq", "Request");
    var replied := ExtractServiceTopics(replies, "rt/rr", "Reply");
    result := IntersectServices(requested, replied);
  }
}
