/** The topic registry: topics are added once and never changed or removed. */
module Topics {
  import opened Wrappers

  datatype KeyStrategy = KeyByID | KeyByUserID | KeyByTenantID | KeyNone

  datatype Meta = Meta(eventType: string, strategy: KeyStrategy)

  datatype TopicError = AlreadyRegistered | NotRegistered | KeyRequired

  /** A registration: the new registry, and whether the topic was new. */
  function Registered(registry: map<string, Meta>, topic: string, meta: Meta): map<string, Meta> {
    if topic in registry then registry else registry[topic := meta]
  }

  function Validate(registry: map<string, Meta>, topic: string, key: string): Option<TopicError> {
    if topic !in registry then Some(NotRegistered)
    else if registry[topic].strategy != KeyNone && key == "" then Some(KeyRequired)
    else None
  }

  class Registry {
    var topics: map<string, Meta>

    constructor ()
      ensures topics == map[]
    {
      topics := map[];
    }

    method RegisterTopic(topic: string, eventType: string, strategy: KeyStrategy) returns (err: Option<TopicError>)
      modifies this
      ensures topics == Registered(old(topics), topic, Meta(eventType, strategy))
      ensures err == if topic in old(topics) then Some(AlreadyRegistered) else None
    {
      if topic in topics {
        return Some(AlreadyRegistered);
      }
      topics := topics[topic := Meta(eventType, strategy)];
      err := None;
    }
  }

  /** The registry only grows, and no entry is overwritten. */
  predicate Extends(later: map<string, Meta>, earlier: map<string, Meta>) {
    forall t :: t in earlier ==> t in later && later[t] == earlier[t]
  }

  function RegisterAll(registry: map<string, Meta>, more: seq<(string, Meta)>): map<string, Meta>
    decreases more
  {
    if more == [] then registry
    else RegisterAll(Registered(registry, more[0].0, more[0].1), more[1..])
  }

  lemma {:induction false} RegistryGrows(registry: map<string, Meta>, more: seq<(string, Meta)>)
    ensures Extends(RegisterAll(registry, more), registry)
    decreases more
  {
    if more != [] {
      RegistryGrows(Registered(registry, more[0].0, more[0].1), more[1..]);
    }
  }

  /** A key that was valid when a row was written is valid whenever the row is published, whatever
      topics are registered meanwhile. */
  lemma ValidKeyStaysValid(registry: map<string, Meta>, more: seq<(string, Meta)>, topic: string, key: string)
    requires Validate(registry, topic, key) == None
    ensures Validate(RegisterAll(registry, more), topic, key) == None
  {
    RegistryGrows(registry, more);
  }

  /** Which keys a topic takes, whatever is registered after it: any with KeyNone, otherwise all but the
      empty one; a topic that was never registered takes none. */
  lemma ValidExactly(registry: map<string, Meta>, topic: string, meta: Meta, more: seq<(string, Meta)>, key: string)
    requires topic !in registry
    ensures Validate(registry, topic, key) == Some(NotRegistered)
    ensures Validate(RegisterAll(Registered(registry, topic, meta), more), topic, key)
            == if key == "" && meta.strategy != KeyNone then Some(KeyRequired) else None
  {
    RegistryGrows(Registered(registry, topic, meta), more);
    assert topic in Registered(registry, topic, meta);
  }
}
