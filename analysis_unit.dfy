/**
 * An analysed Lime source. Besides its source and its root node, the unit keeps what the
 * scope-resolution walk records on the nodes it owns: the environment each node resides in, the
 * environment a node opens for its children, and the declaration each symbol literal refers
 * to, all keyed by node identity.
 */
module AnalysisUnits {
  import opened Wrappers
  import opened Sources
  import opened Ast
  import opened Diagnostics
  import opened LexicalEnvironments

  class AnalysisUnit {
    const source: Source

    /** The root of the unit, once there is one. */
    var rootNode: Option<Node>

    /** Diagnostics about the parsing of the source. */
    var diagnostics: seq<Diagnostic>

    /** Diagnostics about symbol bindings and references. */
    var lexEnvDiagnostics: seq<Diagnostic>

    /** `nodeLexicalEnvironment` of each node populated so far. */
    var nodeEnv: map<NodeId, LexicalEnvironment>

    /** `childrenLexicalEnvironment` of each node that opened an environment. */
    var childrenEnv: map<NodeId, LexicalEnvironment>

    /** `referencedDecl` of each symbol literal that was resolved. */
    var referencedDecl: map<NodeId, Node>

    /** A unit for `source` with no root, no diagnostics and no populated node. */
    constructor(source: Source)
      ensures this.source == source && rootNode == None
      ensures diagnostics == [] && lexEnvDiagnostics == []
      ensures nodeEnv == map[] && childrenEnv == map[] && referencedDecl == map[]
    {
      this.source := source;
      rootNode := None;
      diagnostics := [];
      lexEnvDiagnostics := [];
      nodeEnv := map[];
      childrenEnv := map[];
      referencedDecl := map[];
    }

    method AddLexEnvDiagnostic(d: Diagnostic)
      modifies this`lexEnvDiagnostics
      ensures lexEnvDiagnostics == old(lexEnvDiagnostics) + [d]
    {
      lexEnvDiagnostics := lexEnvDiagnostics + [d];
    }
  }
}
