/**
 * The append-only collections of pkg/database/collections.go. Each collection
 * is an object whose slice field `Add` appends to; an iterator captures the
 * slice as it is when the iterator is created.
 */
module Collections {

  datatype Entity = Entity(typ: string, id: string)

  datatype Subject = Subject(typ: string, id: string, relation: string)

  datatype Tuple = Tuple(entity: Entity, relation: string, subject: Subject)

  /** The subjects of `ts`, position by position. */
  function SubjectsOf(ts: seq<Tuple>): (r: seq<Subject>)
    ensures |r| == |ts|
    ensures forall i :: 0 <= i < |ts| ==> r[i] == ts[i].subject
  {
    if ts == [] then [] else SubjectsOf(ts[..|ts| - 1]) + [ts[|ts| - 1].subject]
  }

  class TupleIterator {
    var tuples: seq<Tuple>

    constructor (tuples: seq<Tuple>)
      ensures this.tuples == tuples
    {
      this.tuples := tuples;
    }
  }

  class SubjectIterator {
    var subjects: seq<Subject>

    constructor (subjects: seq<Subject>)
      ensures this.subjects == subjects
    {
      this.subjects := subjects;
    }
  }

  class EntityIterator {
    var entities: seq<Entity>

    constructor (entities: seq<Entity>)
      ensures this.entities == entities
    {
      this.entities := entities;
    }
  }

  class TupleCollection {
    var tuples: seq<Tuple>

    /** `NewTupleCollection(tuples...)`: no arguments give an empty collection. */
    constructor (tuples: seq<Tuple>)
      ensures this.tuples == tuples
    {
      this.tuples := tuples;
    }

    method CreateTupleIterator() returns (it: TupleIterator)
      ensures fresh(it) && it.tuples == tuples
    {
      it := new TupleIterator(tuples);
    }

    /** The elements in insertion order. */
    function GetTuples(): (r: seq<Tuple>)
      reads this
      ensures |r| == |tuples| && forall i :: 0 <= i < |r| ==> r[i] == tuples[i]
    {
      tuples
    }

    method Add(tuple: Tuple)
      modifies this
      ensures tuples == old(tuples) + [tuple]
    {
      tuples := tuples + [tuple];
    }

    /** Fills a slice of the same length with each tuple's subject. */
    method ToSubjectCollection() returns (c: SubjectCollection)
      ensures fresh(c)
      ensures c.subjects == SubjectsOf(tuples)
    {
      var subjects := new Subject[|tuples|];
      for index := 0 to |tuples|
        invariant forall k :: 0 <= k < index ==> subjects[k] == tuples[k].subject
      {
        subjects[index] := tuples[index].subject;
      }
      c := new SubjectCollection(subjects[..]);
    }
  }

  class SubjectCollection {
    var subjects: seq<Subject>

    /** `NewSubjectCollection(subjects...)`: no arguments give an empty collection. */
    constructor (subjects: seq<Subject>)
      ensures this.subjects == subjects
    {
      this.subjects := subjects;
    }

    method CreateSubjectIterator() returns (it: SubjectIterator)
      ensures fresh(it) && it.subjects == subjects
    {
      it := new SubjectIterator(subjects);
    }

    /** The elements in insertion order. */
    function GetSubjects(): (r: seq<Subject>)
      reads this
      ensures |r| == |subjects| && forall i :: 0 <= i < |r| ==> r[i] == subjects[i]
    {
      subjects
    }

    method Add(subject: Subject)
      modifies this
      ensures subjects == old(subjects) + [subject]
    {
      subjects := subjects + [subject];
    }
  }

  class EntityCollection {
    var entities: seq<Entity>

    /** `NewEntityCollection(entities...)`: no arguments give an empty collection. */
    constructor (entities: seq<Entity>)
      ensures this.entities == entities
    {
      this.entities := entities;
    }

    method CreateEntityIterator() returns (it: EntityIterator)
      ensures fresh(it) && it.entities == entities
    {
      it := new EntityIterator(entities);
    }

    /** The elements in insertion order. */
    function GetEntities(): (r: seq<Entity>)
      reads this
      ensures |r| == |entities| && forall i :: 0 <= i < |r| ==> r[i] == entities[i]
    {
      entities
    }

    method Add(entity: Entity)
      modifies this
      ensures entities == old(entities) + [entity]
    {
      entities := entities + [entity];
    }
  }

  /**
   * A usage example, not a routine of the package: an iterator keeps ranging
   * over the elements the collection held when it was created, while `Add`
   * goes on growing the collection.
   */
  method IteratorIsSnapshot(a: Tuple, b: Tuple)
  {
    var c := new TupleCollection([a]);
    var it := c.CreateTupleIterator();
    c.Add(b);
    assert it.tuples == [a];
    assert c.GetTuples() == [a, b];
    var s := c.ToSubjectCollection();
    assert s.GetSubjects() == [a.subject, b.subject];
  }
}
