/**
 * The analysis context: the prelude unit, and the cache of the units analysed so far, keyed by
 * source. Sources are equal when their identifiers are, so the cache is keyed by identifier.
 */
module AnalysisContexts {
  import opened Wrappers
  import opened Sources
  import opened Ast
  import opened AnalysisUnits
  import opened Preludes

  class AnalysisContext {
    /** `preludeUnit`: the unit of the prelude, built when the context is. */
    const preludeUnit: AnalysisUnit

    /** `units`: every analysed source, by identifier, with its unit. */
    var units: map<SourceId, AnalysisUnit>

    /** Every cached unit is the unit of a source with the identifier it is cached under. */
    ghost predicate Valid()
      reads this
    {
      forall id :: id in units ==> units[id].source.identifier == id
    }

    /** A new context caches the prelude unit, under the prelude source, and nothing else. */
    constructor()
      ensures Valid()
      ensures units == map[PreludeSource.identifier := preludeUnit]
      ensures preludeUnit.source == PreludeSource && preludeUnit.rootNode == Some(PreludeModule())
      ensures preludeUnit.diagnostics == []
    {
      var unit, _ := PreludeUnit();
      preludeUnit := unit;
      units := map[PreludeSource.identifier := unit];
    }

    /**
     * `analyseBuffer`: without `reparse`, a source already cached under the buffer's name gives
     * back its cached unit, whatever the new content; otherwise a new unit of the buffer replaces
     * any cached one. Either way the name is then cached with the returned unit, and no other
     * entry changes. The parse of the new unit is not part of this model: it has no root yet.
     */
    method AnalyseBuffer(bufferName: string, bufferContent: string, reparse: bool) returns (unit: AnalysisUnit)
      requires Valid()
      modifies this`units
      ensures Valid()
      ensures units == old(units)[bufferName := unit]
      ensures unit.source.identifier == bufferName
      ensures bufferName in old(units) && !reparse ==> unit == old(units)[bufferName] && units == old(units)
      ensures !(bufferName in old(units) && !reparse) ==>
                fresh(unit) && unit.source == Source(bufferName, bufferContent) && unit.rootNode == None &&
                unit.diagnostics == [] && unit.lexEnvDiagnostics == []
    {
      var source := Source(bufferName, bufferContent);
      if source.identifier in units && !reparse {
        return units[source.identifier];
      }
      unit := new AnalysisUnit(source);
      units := units[source.identifier := unit];
    }
  }

  /** Analysing a buffer twice without `reparse` gives the same unit the second time. */
  method AnalyseTwice(ctx: AnalysisContext, name: string, first: string, second: string)
    returns (u1: AnalysisUnit, u2: AnalysisUnit)
    requires ctx.Valid()
    modifies ctx`units
    ensures ctx.Valid() && u1 == u2 && ctx.units == old(ctx.units)[name := u1]
    ensures name in old(ctx.units) ==> u1 == old(ctx.units)[name]
    ensures name !in old(ctx.units) ==> fresh(u1) && u1.source == Source(name, first)
  {
    u1 := ctx.AnalyseBuffer(name, first, false);
    u2 := ctx.AnalyseBuffer(name, second, false);
  }
}
