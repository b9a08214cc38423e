/**
 * characterController.js: the Characters table. A character belongs to a
 * novel. Reading one character by id answers a list, not a row. The
 * `if (err)` branches of the database callbacks are not modelled.
 */
module CharacterController {
  import opened Js
  import opened Tables

  /** A row of Characters. Description and role may be NULL. */
  datatype Character = Character(
    novelID: int,
    name: string,
    description: Option<string>,
    role: Option<string>)

  /** The owner column `NovelID`. */
  function NovelOf(c: Character): int
  {
    c.novelID
  }

  const Required := "Novel ID and name are required"
  const NotFound := "Character not found"
  const Updated := "Character updated successfully"
  const Deleted := "Character deleted successfully"

  /** The record `createCharacter` echoes: the stored row, with a missing description or role read as `''`. */
  function Echo(c: Character): (r: Character)
    ensures r.description.Some? && r.role.Some?
    ensures Given(c.description) ==> r.description == c.description
    ensures !Given(c.description) ==> r.description == Some("")
    ensures Given(c.role) ==> r.role == c.role
    ensures !Given(c.role) ==> r.role == Some("")
    ensures r.novelID == c.novelID && r.name == c.name
  {
    c.(description := Some(OrElse(c.description, "")), role := Some(OrElse(c.role, "")))
  }

  /** The body of `PUT /characters/:CharacterID`. */
  datatype CharacterChanges = CharacterChanges(name: Option<string>, description: Option<string>, role: Option<string>)

  /** Each of Name, Description and Role is replaced exactly when the new value is truthy. */
  function Merge(c: Character, u: CharacterChanges): (r: Character)
    ensures r.name == (if Given(u.name) then u.name.value else c.name)
    ensures r.description == (if Given(u.description) then u.description else c.description)
    ensures r.role == (if Given(u.role) then u.role else c.role)
    ensures r.novelID == c.novelID
    ensures c.name != "" ==> r.name != ""
    ensures Given(c.description) ==> Given(r.description)
    ensures Given(c.role) ==> Given(r.role)
  {
    c.(name := OrElse(u.name, c.name),
       description := OrElseOpt(u.description, c.description),
       role := OrElseOpt(u.role, c.role))
  }

  /** Sending the same changes twice is sending them once. */
  lemma MergeIdempotent(c: Character, u: CharacterChanges)
    ensures Merge(Merge(c, u), u) == Merge(c, u)
  {
  }

  class CharacterTable {
    var rows: map<nat, Character>
    var nextId: nat

    /** Ids are below the next one, and every stored name is non-empty. */
    ghost predicate Valid()
      reads this
    {
      (forall id :: id in rows ==> id < nextId)
      && (forall id :: id in rows ==> rows[id].name != "")
    }

    constructor ()
      ensures Valid() && rows == map[]
    {
      rows, nextId := map[], 1;
    }

    /**
     * `createCharacter`: 400 and no insert without a novel id or a truthy
     * name; otherwise the row as sent is inserted and echoed with a numeric
     * novel id.
     */
    method CreateCharacter(novelID: Option<int>, name: Option<string>, description: Option<string>, role: Option<string>)
      returns (reply: Reply<(nat, Character)>)
      requires Valid()
      modifies this
      ensures Valid()
      ensures !(novelID.Some? && Given(name)) ==>
        reply == Text(400, Required) && rows == old(rows) && nextId == old(nextId)
      ensures novelID.Some? && Given(name) ==>
        var character := Character(novelID.value, name.value, description, role);
        old(nextId) !in old(rows)
        && rows == old(rows)[old(nextId) := character]
        && reply == Json(201, (old(nextId), Echo(character)))
    {
      if novelID.None? || !Given(name) {
        return Text(400, Required);
      }
      var character := Character(novelID.value, name.value, description, role);
      reply := Json(201, (nextId, Echo(character)));
      rows := rows[nextId := character];
      nextId := nextId + 1;
    }

    /** `getCharacters`: exactly the characters of the novel. */
    method GetCharacters(novelID: int) returns (reply: Reply<map<nat, Character>>)
      ensures reply.Json? && reply.status == 200
      ensures forall id :: id in reply.value <==> id in rows && rows[id].novelID == novelID
      ensures forall id :: id in reply.value ==> reply.value[id] == rows[id]
    {
      reply := Json(200, Owned(rows, NovelOf, novelID));
    }

    /** `getCharacterById`: always 200 with a list, empty or holding just that character. */
    method GetCharacterById(characterID: int) returns (reply: Reply<seq<(nat, Character)>>)
      ensures reply.Json? && reply.status == 200 && |reply.value| <= 1
      ensures reply.value == [] <==> characterID < 0 || characterID !in rows
      ensures reply.value != [] ==> reply.value[0] == (characterID as nat, rows[characterID])
    {
      if characterID < 0 {
        return Json(200, []);
      }
      reply := Json(200, ById(rows, characterID as nat));
    }

    /** `updateCharacter`: 404 for an absent character; otherwise only that row is merged. */
    method UpdateCharacter(characterID: int, changes: CharacterChanges) returns (reply: Reply<()>)
      requires Valid()
      modifies this
      ensures Valid() && nextId == old(nextId)
      ensures (characterID < 0 || characterID !in old(rows)) ==> reply == Text(404, NotFound) && rows == old(rows)
      ensures characterID >= 0 && characterID in old(rows) ==>
        reply == Text(200, Updated)
        && rows == old(rows)[characterID as nat := Merge(old(rows)[characterID], changes)]
    {
      if characterID < 0 || characterID !in rows {
        return Text(404, NotFound);
      }
      rows := rows[characterID as nat := Merge(rows[characterID], changes)];
      reply := Text(200, Updated);
    }

    /** `deleteCharacter`: removes that row only; 200 whether or not it existed. */
    method DeleteCharacter(characterID: int) returns (reply: Reply<()>)
      requires Valid()
      modifies this
      ensures Valid() && nextId == old(nextId)
      ensures reply == Text(200, Deleted)
      ensures characterID < 0 ==> rows == old(rows)
      ensures characterID >= 0 ==> rows == old(rows) - {characterID as nat}
    {
      if characterID >= 0 {
        rows := rows - {characterID as nat};
      }
      reply := Text(200, Deleted);
    }
  }
}
