/** The chapter-six exercises: building a Person by value and through a
    pointer, and which slice updates a caller can see. A Go slice parameter
    shares its backing array with the caller, so element writes show through;
    an append that outgrows the array only changes the callee's copy. */
module Pointers {

  datatype Person = Person(FirstName: string, LastName: string, Age: int)

  /** `MakePerson`: a Person value holding exactly the given fields. */
  function MakePerson(firstName: string, lastName: string, age: int): (p: Person)
    ensures p.FirstName == firstName && p.LastName == lastName && p.Age == age
  {
    Person(firstName, lastName, age)
  }

  /** Any Person is the one MakePerson builds from its own fields, so
      MakePerson loses nothing and two calls agree only on equal fields. */
  lemma MakePersonRoundTrip(p: Person)
    ensures MakePerson(p.FirstName, p.LastName, p.Age) == p
  {
  }

  /** A heap cell holding a Person, the target of a `*Person`. */
  class PersonCell {
    var value: Person

    constructor(p: Person)
      ensures value == p
    {
      value := p;
    }
  }

  /** `MakePersonPointer`: a pointer to a newly allocated Person equal to the
      one MakePerson returns for the same arguments. */
  method MakePersonPointer(firstName: string, lastName: string, age: int) returns (ptr: PersonCell)
    ensures fresh(ptr)
    ensures ptr.value == MakePerson(firstName, lastName, age)
  {
    ptr := new PersonCell(Person(firstName, lastName, age));
  }

  /** `UpdateSlice`: the caller's last element becomes `val`; the length and
      every other element stay as they were. An empty slice makes the Go
      code panic on index -1, so a non-empty one is required. */
  method UpdateSlice(s: array<string>, val: string)
    requires s.Length > 0
    modifies s
    ensures s[s.Length - 1] == val
    ensures forall i :: 0 <= i < s.Length - 1 ==> s[i] == old(s[i])
  {
    s[s.Length - 1] := val;
  }

  /** `GrowSlice`: the append produces a longer slice that only the callee
      holds (`local`, the value it prints). The caller's slice is not
      written: no element and no length of it changes. */
  method GrowSlice(s: array<string>, val: string) returns (local: seq<string>)
    ensures |local| == s.Length + 1
    ensures local[..s.Length] == s[..] && local[s.Length] == val
  {
    local := s[..] + [val];
  }

  /** The program's second exercise: [a b c] becomes [a b d] after
      UpdateSlice with "d", and stays [a b d] after GrowSlice with "e". */
  method Two() returns (afterUpdate: seq<string>, afterGrow: seq<string>)
    ensures afterUpdate == ["a", "b", "d"]
    ensures afterGrow == ["a", "b", "d"]
  {
    var s := new string[3](i => if i == 0 then "a" else if i == 1 then "b" else "c");
    UpdateSlice(s, "d");
    afterUpdate := s[..];
    var _ := GrowSlice(s, "e");
    afterGrow := s[..];
  }
}
