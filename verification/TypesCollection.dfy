/** The types and topics that discovery has seen; a split rebuilds the next file's tables from them. */
module TypesCollection {

  /** What add_type stores of a type, once the type support has produced its schema text. */
  datatype CollectedType = CollectedType(name: string, schemaEncoding: string, schemaData: string)

  datatype Types = Types(types: map<string, CollectedType>, topics: map<string, string>)

  const EMPTY: Types := Types(map[], map[])

  /** The first description of a type stays. */
  function AddType(t: Types, name: string, schemaData: string): Types {
    if name in t.types then t else t.(types := t.types[name := CollectedType(name, "omgidl", schemaData)])
  }

  /** The last type of a topic counts. */
  function RegisterTopic(t: Types, topic: string, typeName: string): Types {
    t.(topics := t.topics[topic := typeName])
  }

  function TypeForTopic(t: Types, topic: string): string {
    if topic in t.topics then t.topics[topic] else ""
  }

  /** Every topic's type is described, under its own name. */
  ghost predicate Closed(t: Types) {
    && (forall topic :: topic in t.topics ==> t.topics[topic] in t.types)
    && (forall name :: name in t.types ==> t.types[name].name == name)
  }

  class Collection {
    var types: map<string, CollectedType>
    var topics: map<string, string>

    ghost function State(): Types
      reads this
    {
      Types(types, topics)
    }

    constructor ()
      ensures State() == EMPTY
    {
      types, topics := map[], map[];
    }

    method Add(name: string, schemaData: string) returns (added: bool)
      modifies this
      ensures State() == AddType(old(State()), name, schemaData)
      ensures added <==> name !in old(types)
      ensures name in types
    {
      if name in types {
        return false;
      }
      types := types[name := CollectedType(name, "omgidl", schemaData)];
      added := true;
    }

    method Register(topic: string, typeName: string)
      modifies this
      ensures State() == RegisterTopic(old(State()), topic, typeName)
    {
      topics := topics[topic := typeName];
    }

    method GetTypeForTopic(topic: string) returns (name: string)
      ensures name == TypeForTopic(State(), topic)
    {
      if topic in topics {
        return topics[topic];
      }
      return "";
    }
  }
}
