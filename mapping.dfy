/**
 * The obfuscated-to-original class-name table (Retrace.kt:9-42). ProGuard's
 * MappingReader reads the mapping file and calls back into a `Processor` for
 * every class, field and method record; the processor keeps only the class
 * records, in a map from obfuscated to original name.
 */
module Mapping {
  import opened Wrappers

  /** One callback MappingReader makes while it reads a mapping file. */
  datatype MappingRecord =
    | ClassMapping(originalName: Option<string>, obfuscatedName: Option<string>)
    | FieldMapping(className: Option<string>, fieldName: Option<string>, newFieldName: Option<string>)
    | MethodMapping(className: Option<string>, methodName: Option<string>, newMethodName: Option<string>)

  /** The record stores an original name under `key`. */
  predicate Defines(r: MappingRecord, key: string)
  {
    r.ClassMapping? && r.originalName.Some? && r.obfuscatedName == Some(key)
  }

  /** The table after one record: a class record with both names present sets its entry. */
  function ApplyRecord(m: map<string, string>, r: MappingRecord): map<string, string>
  {
    if r.ClassMapping? && r.originalName.Some? && r.obfuscatedName.Some?
    then m[r.obfuscatedName.value := r.originalName.value]
    else m
  }

  /** The table after the records, in order, starting from `m`. */
  function ApplyAll(m: map<string, string>, records: seq<MappingRecord>): map<string, string>
  {
    if records == [] then m
    else ApplyRecord(ApplyAll(m, records[..|records| - 1]), records[|records| - 1])
  }

  /** The table a fresh processor holds after the records. */
  function ClassMapOf(records: seq<MappingRecord>): map<string, string>
  {
    ApplyAll(map[], records)
  }

  /**
   * Last write wins: a name is in the table exactly when some class record
   * defines it, and then it maps to the original name of the last such record.
   */
  lemma {:induction false} LastWriteWins(records: seq<MappingRecord>, key: string)
    ensures key in ClassMapOf(records) <==> exists i :: 0 <= i < |records| && Defines(records[i], key)
    ensures key in ClassMapOf(records) ==>
      exists i :: 0 <= i < |records| && Defines(records[i], key) &&
        ClassMapOf(records)[key] == records[i].originalName.value &&
        forall j :: i < j < |records| ==> !Defines(records[j], key)
  {
    if records != [] {
      var init, r := records[..|records| - 1], records[|records| - 1];
      LastWriteWins(init, key);
      assert forall i :: 0 <= i < |init| ==> init[i] == records[i];
      if Defines(r, key) {
        assert Defines(records[|records| - 1], key);
      } else if key in ClassMapOf(records) {
        var i :| 0 <= i < |init| && Defines(init[i], key) &&
          ClassMapOf(init)[key] == init[i].originalName.value &&
          forall j :: i < j < |init| ==> !Defines(init[j], key);
        assert Defines(records[i], key);
      }
    }
  }

  class Processor {
    var classNameMap: map<string, string>

    constructor ()
      ensures classNameMap == map[]
    {
      classNameMap := map[];
    }

    /** Stores the class record when both names are present; always asks the reader to go on. */
    method ProcessClassMapping(originalName: Option<string>, obfuscatedName: Option<string>) returns (r: bool)
      modifies this
      ensures r
      ensures classNameMap == ApplyRecord(old(classNameMap), ClassMapping(originalName, obfuscatedName))
      ensures originalName.Some? && obfuscatedName.Some? ==> classNameMap[obfuscatedName.value] == originalName.value
      ensures originalName.None? || obfuscatedName.None? ==> classNameMap == old(classNameMap)
    {
      if obfuscatedName.Some? && originalName.Some? {
        classNameMap := classNameMap[obfuscatedName.value := originalName.value];
      }
      r := true;
    }

    /** Field records are ignored. */
    method ProcessFieldMapping(className: Option<string>, fieldName: Option<string>, newFieldName: Option<string>)
    {
    }

    /** Method records are ignored. */
    method ProcessMethodMapping(className: Option<string>, methodName: Option<string>, newMethodName: Option<string>)
    {
    }
  }

  /**
   * `MappingReader(mappingFile).pump(processor)`, with the reader's parsing left
   * out: the records it finds are handed to the processor in file order.
   */
  method Pump(records: seq<MappingRecord>, processor: Processor)
    modifies processor
    ensures processor.classNameMap == ApplyAll(old(processor.classNameMap), records)
  {
    var i := 0;
    while i < |records|
      invariant 0 <= i <= |records|
      invariant processor.classNameMap == ApplyAll(old(processor.classNameMap), records[..i])
    {
      assert records[..i + 1][..i] == records[..i];
      match records[i] {
        case ClassMapping(originalName, obfuscatedName) =>
          var _ := processor.ProcessClassMapping(originalName, obfuscatedName);
        case FieldMapping(className, fieldName, newFieldName) =>
          processor.ProcessFieldMapping(className, fieldName, newFieldName);
        case MethodMapping(className, methodName, newMethodName) =>
          processor.ProcessMethodMapping(className, methodName, newMethodName);
      }
      i := i + 1;
    }
    assert records[..i] == records;
  }

  /** Retrace.kt:80-81: a fresh processor filled from the mapping file's records. */
  method LoadClassMap(records: seq<MappingRecord>) returns (classNameMap: map<string, string>)
    ensures classNameMap == ClassMapOf(records)
  {
    var processor := new Processor();
    Pump(records, processor);
    classNameMap := processor.classNameMap;
  }
}
