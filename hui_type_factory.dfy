/**
 * The lookups of the HUI type factory once the entity definitions are read:
 * resource-bundle keys, the tag list, translated messages with their
 * defaults, the relations leading to an entity type, and the property
 * group a property belongs to.
 */
module HuiTypeFactory {
  import opened Wrappers
  import opened JavaStrings

  /** A relation type as the entity definition declares it. */
  datatype HuiRelation = HuiRelation(id: string, from: string, to: string)

  /** A property group: its id and the ids of the property types it holds. */
  datatype PropertyGroup = PropertyGroup(id: string, propertyTypes: set<string>)

  /**
   * An entity type: its property groups (None for a null list) and, per
   * target entity type, the relations it may have to it (no entry for null).
   */
  datatype EntityType = EntityType(
    id: string,
    propertyGroups: Option<seq<PropertyGroup>>,
    relationsTo: map<string, set<HuiRelation>>)

  /** EntityType.getPossibleRelations: a missing entry adds nothing. */
  function PossibleRelations(e: EntityType, to: string): set<HuiRelation> {
    if to in e.relationsTo then e.relationsTo[to] else {}
  }

  /** PropertyGroup.getPropertyType(propertyId) != null. */
  predicate HasPropertyType(g: PropertyGroup, propertyId: string) {
    propertyId in g.propertyTypes
  }

  /** getKey: the resource bundle key of an attribute of a HUI element. */
  function GetKey(id: string, attribute: string): (r: string)
    ensures |r| == |id| + 1 + |attribute|
    ensures r[..|id|] == id && r[|id|] == '_' && r[|id| + 1..] == attribute
  {
    id + "_" + attribute
  }

  /** Ids without an underscore give distinct keys for distinct (id, attribute) pairs. */
  lemma GetKeyInjective(id1: string, a1: string, id2: string, a2: string)
    requires '_' !in id1 && '_' !in id2
    requires GetKey(id1, a1) == GetKey(id2, a2)
    ensures id1 == id2 && a1 == a2
  {
    NoUnderscoreBefore(id1, a1);
    NoUnderscoreBefore(id2, a2);
  }

  /** The first underscore of a key ends the id when the id has none. */
  lemma NoUnderscoreBefore(id: string, attribute: string)
    requires '_' !in id
    ensures forall j :: 0 <= j < |id| ==> GetKey(id, attribute)[j] != '_'
  {
    var k := GetKey(id, attribute);
    forall j | 0 <= j < |id|
      ensures k[j] != '_'
    {
      assert k[j] == k[..|id|][j];
    }
  }

  /** With an underscore in the id, two elements' keys can coincide. */
  lemma GetKeyAmbiguous()
    ensures GetKey("a_b", "c") == GetKey("a", "b_c")
  {
  }

  /**
   * The tags a tag string adds: whitespace removed, split at commas as
   * String.split does (trailing empty pieces dropped, inner ones kept).
   */
  function TagsOf(tags: string): (r: set<string>)
    ensures forall t :: t in r ==> ',' !in t
    ensures forall t :: t in r ==> forall k :: 0 <= k < |t| ==> !IsWhitespace(t[k]) && t[k] in tags
  {
    var pieces := Split(RemoveWhitespace(tags), ',');
    set i | 0 <= i < |pieces| :: pieces[i]
  }

  lemma TagsOfPieces(tags: string)
    ensures forall t :: t in TagsOf(tags) <==> t in Split(RemoveWhitespace(tags), ',')
  {
  }

  lemma {:induction false} RemoveWhitespaceKeepsClean(s: string)
    requires forall i :: 0 <= i < |s| ==> !IsWhitespace(s[i])
    ensures RemoveWhitespace(s) == s
  {
    if s != [] {
      RemoveWhitespaceKeepsClean(s[1..]);
      assert [s[0]] + s[1..] == s;
    }
  }

  /** A tag string without commas or whitespace is one tag. */
  lemma SingleTag(tags: string)
    requires ',' !in tags
    requires forall i :: 0 <= i < |tags| ==> !IsWhitespace(tags[i])
    ensures TagsOf(tags) == {tags}
  {
    RemoveWhitespaceKeepsClean(tags);
    TagsOfPieces(tags);
  }

  /** A tag string of only whitespace adds the empty tag. */
  lemma BlankTagsAddEmptyTag()
    ensures TagsOf("  ") == {""}
  {
    assert RemoveWhitespace("  ") == "";
    TagsOfPieces("  ");
  }

  /** The type factory after its entity definitions were read. */
  class HuiTypeFactory {
    var allTags: set<string>
    var allEntities: map<string, EntityType>
    var defaultMessages: map<string, string>
    /** SNCAMessages.getString: a translation, or None for a missing one. */
    const messages: string -> Option<string>
    /** Whether debug logging is on, which marks default messages. */
    const debugEnabled: bool

    /**
     * The factory once parsing has filled its maps. The parsed defaults are
     * the raw name attributes of the entity, relation, property and group
     * definitions, so a missing attribute leaves "" stored under its key.
     */
    constructor (entities: map<string, EntityType>, defaults: map<string, string>,
                 messages: string -> Option<string>, debugEnabled: bool)
      ensures allTags == {} && allEntities == entities && defaultMessages == defaults
      ensures this.messages == messages && this.debugEnabled == debugEnabled
    {
      allTags := {};
      allEntities := entities;
      defaultMessages := defaults;
      this.messages := messages;
      this.debugEnabled := debugEnabled;
    }

    /** addToTagList: a null or empty tag string adds nothing. */
    method AddToTagList(tags: Option<string>)
      modifies this`allTags
      ensures tags.None? || tags.value == [] ==> allTags == old(allTags)
      ensures tags.Some? && tags.value != [] ==> allTags == old(allTags) + TagsOf(tags.value)
      ensures old(allTags) <= allTags
      ensures forall t :: t in allTags && t !in old(allTags) ==> forall k :: 0 <= k < |t| ==> !IsWhitespace(t[k])
    {
      if tags.None? || |tags.value| < 1 {
        return;
      }
      allTags := allTags + TagsOf(tags.value);
    }

    /**
     * getMessage(key, defaultMessage, emptyIfNotFound): the translation
     * when there is one; otherwise the default (stored for later), marked
     * in debug mode, or, without a default, "" or the key marked "(!)".
     */
    method GetMessage(key: string, defaultMessage: Option<string>, emptyIfNotFound: bool) returns (r: string)
      modifies this`defaultMessages
      ensures messages(key).Some? ==> r == messages(key).value && defaultMessages == old(defaultMessages)
      ensures messages(key).None? && (defaultMessage.None? || defaultMessage.value == "") ==>
        defaultMessages == old(defaultMessages) && r == (if emptyIfNotFound then "" else key + " (!)")
      ensures messages(key).None? && defaultMessage.Some? && defaultMessage.value != "" ==>
        && defaultMessages == old(defaultMessages)[key := defaultMessage.value]
        && r == (if debugEnabled then defaultMessage.value + " (SNCA.xml)" else defaultMessage.value)
    {
      var message := messages(key);
      if message.Some? {
        return message.value;
      }
      r := GetDefaultMessage(key, defaultMessage, emptyIfNotFound);
    }

    method GetDefaultMessage(key: string, defaultMessage: Option<string>, emptyIfNotFound: bool) returns (r: string)
      modifies this`defaultMessages
      ensures defaultMessage.None? || defaultMessage.value == "" ==>
        defaultMessages == old(defaultMessages) && r == (if emptyIfNotFound then "" else key + " (!)")
      ensures defaultMessage.Some? && defaultMessage.value != "" ==>
        && defaultMessages == old(defaultMessages)[key := defaultMessage.value]
        && r == (if debugEnabled then defaultMessage.value + " (SNCA.xml)" else defaultMessage.value)
    {
      if defaultMessage.None? || defaultMessage.value == "" {
        if emptyIfNotFound {
          return "";
        } else {
          return key + " (!)";
        }
      } else {
        defaultMessages := defaultMessages[key := defaultMessage.value];
        if debugEnabled {
          return defaultMessage.value + " (SNCA.xml)";
        }
        return defaultMessage.value;
      }
    }

    /** getMessage(key): the default stored earlier for the key serves as the default. */
    method GetMessageOfKey(key: string) returns (r: string)
      modifies this`defaultMessages
      ensures defaultMessages == old(defaultMessages)
      ensures messages(key).Some? ==> r == messages(key).value
      ensures messages(key).None? && key in defaultMessages && defaultMessages[key] != "" ==>
        r == (if debugEnabled then defaultMessages[key] + " (SNCA.xml)" else defaultMessages[key])
      ensures messages(key).None? && (key !in defaultMessages || defaultMessages[key] == "") ==>
        r == key + " (!)"
    {
      var stored := if key in defaultMessages then Some(defaultMessages[key]) else None;
      r := GetMessage(key, stored, false);
      assert key in old(defaultMessages) ==> old(defaultMessages)[key := old(defaultMessages)[key]] == old(defaultMessages);
    }

    /** getMessage(key, defaultMessage): never the empty answer for a missing message. */
    method GetMessageWithDefault(key: string, defaultMessage: Option<string>) returns (r: string)
      modifies this`defaultMessages
      ensures messages(key).Some? ==> r == messages(key).value && defaultMessages == old(defaultMessages)
      ensures messages(key).None? && (defaultMessage.None? || defaultMessage.value == "") ==>
        defaultMessages == old(defaultMessages) && r == key + " (!)"
      ensures messages(key).None? && defaultMessage.Some? && defaultMessage.value != "" ==>
        && defaultMessages == old(defaultMessages)[key := defaultMessage.value]
        && r == (if debugEnabled then defaultMessage.value + " (SNCA.xml)" else defaultMessage.value)
    {
      r := GetMessage(key, defaultMessage, false);
    }

    /** getPossibleRelationsTo: every relation any entity type may have to the target type. */
    method GetPossibleRelationsTo(to: string) returns (r: set<HuiRelation>)
      ensures forall rel :: rel in r <==>
        exists id :: id in allEntities && rel in PossibleRelations(allEntities[id], to)
    {
      r := {};
      var remaining := allEntities.Keys;
      ghost var visited: set<string> := {};
      while remaining != {}
        invariant remaining + visited == allEntities.Keys && remaining !! visited
        invariant forall rel :: rel in r <==>
          exists id :: id in visited && rel in PossibleRelations(allEntities[id], to)
        decreases remaining
      {
        var id :| id in remaining;
        var these := PossibleRelations(allEntities[id], to);
        if these != {} {
          r := r + these;
        }
        remaining := remaining - {id};
        visited := visited + {id};
      }
    }

    /** getPropertyGroup: the first group of the entity type that holds the property. */
    method GetPropertyGroup(entityId: string, propertyId: string) returns (r: Option<PropertyGroup>)
      ensures r.None? <==>
        || entityId !in allEntities
        || allEntities[entityId].propertyGroups.None?
        || forall g :: g in allEntities[entityId].propertyGroups.value ==> !HasPropertyType(g, propertyId)
      ensures r.Some? ==>
        exists i ::
          && 0 <= i < |allEntities[entityId].propertyGroups.value|
          && allEntities[entityId].propertyGroups.value[i] == r.value
          && HasPropertyType(r.value, propertyId)
          && forall j :: 0 <= j < i ==> !HasPropertyType(allEntities[entityId].propertyGroups.value[j], propertyId)
    {
      if entityId !in allEntities {
        return None;
      }
      var entityType := allEntities[entityId];
      if entityType.propertyGroups.None? {
        return None;
      }
      var groups := entityType.propertyGroups.value;
      var i := 0;
      while i < |groups|
        invariant 0 <= i <= |groups|
        invariant forall j :: 0 <= j < i ==> !HasPropertyType(groups[j], propertyId)
      {
        if HasPropertyType(groups[i], propertyId) {
          return Some(groups[i]);
        }
        i := i + 1;
      }
      return None;
    }
  }
}
