/**
 * Lexical environments: scopes binding symbols to their declaration nodes, with an optional
 * parent scope for recursive lookups and the list of the scopes opened below them.
 */
module LexicalEnvironments {
  import opened Wrappers
  import opened Ast

  type Bindings = map<string, Node>

  /** `LookupMode`: SIMPLE looks in one scope only, RECURSIVE also in the enclosing ones. */
  datatype LookupMode = Simple | Recursive

  /** `SymbolAlreadyBoundedException`, naming the symbol that is already bound. */
  datatype SymbolAlreadyBounded = SymbolAlreadyBounded(symbol: string)

  /** The binding of `symbol` in the innermost scope of `chain` (innermost first) that binds it. */
  function LookupChain(chain: seq<Bindings>, symbol: string): Option<Node> {
    if chain == [] then None
    else if symbol in chain[0] then Some(chain[0][symbol])
    else LookupChain(chain[1..], symbol)
  }

  /**
   * A chain lookup finds a binding exactly when some scope binds the symbol, and what it finds is
   * the binding of the innermost such scope.
   */
  lemma {:induction false} LookupChainFinds(chain: seq<Bindings>, symbol: string)
    ensures LookupChain(chain, symbol).Some? <==> exists i :: 0 <= i < |chain| && symbol in chain[i]
    ensures LookupChain(chain, symbol).Some? ==>
              exists i :: 0 <= i < |chain| && symbol in chain[i] && LookupChain(chain, symbol).value == chain[i][symbol] &&
                          forall j :: 0 <= j < i ==> symbol !in chain[j]
  {
    if chain != [] && symbol !in chain[0] {
      LookupChainFinds(chain[1..], symbol);
      assert forall i :: 1 <= i < |chain| ==> chain[i] == chain[1..][i - 1];
      if LookupChain(chain, symbol).Some? {
        var k :| 0 <= k < |chain[1..]| && symbol in chain[1..][k] && LookupChain(chain, symbol).value == chain[1..][k][symbol] &&
                 forall j :: 0 <= j < k ==> symbol !in chain[1..][j];
        assert symbol in chain[k + 1];
        assert forall j :: 0 <= j < k + 1 ==> symbol !in chain[j] by {
          forall j | 0 <= j < k + 1 ensures symbol !in chain[j] {
            if j > 0 { assert chain[j] == chain[1..][j - 1]; }
          }
        }
      }
    }
  }

  /** Shadowing: a binding in the innermost scope hides every enclosing binding of the same symbol. */
  lemma LookupChainShadowing(chain: seq<Bindings>, symbol: string)
    requires |chain| > 0 && symbol in chain[0]
    ensures LookupChain(chain, symbol) == Some(chain[0][symbol])
  {
  }

  /** The result of a chain lookup is the binding of the first scope that binds the symbol. */
  lemma {:induction false} LookupChainNearest(chain: seq<Bindings>, symbol: string, i: nat)
    requires i < |chain| && symbol in chain[i]
    requires forall j :: 0 <= j < i ==> symbol !in chain[j]
    ensures LookupChain(chain, symbol) == Some(chain[i][symbol])
  {
    if i > 0 {
      assert symbol !in chain[0];
      LookupChainNearest(chain[1..], symbol, i - 1);
    }
  }

  /** A lookup only depends on the scopes that bind the symbol: changing another symbol is not seen. */
  lemma {:induction false} LookupChainOtherSymbol(chain: seq<Bindings>, symbol: string, other: string, d: Node)
    requires |chain| > 0 && symbol != other
    ensures LookupChain([chain[0][other := d]] + chain[1..], symbol) == LookupChain(chain, symbol)
  {
    var chain' := [chain[0][other := d]] + chain[1..];
    assert chain'[1..] == chain[1..];
  }

  class LexicalEnvironment {
    const parent: LexicalEnvironment?

    /** The enclosing environments, and how many there are. */
    ghost const ancestors: set<LexicalEnvironment>
    ghost const depth: nat

    var bindings: Bindings
    var children: seq<LexicalEnvironment>

    /** The parent chain is finite and does not loop back to this environment. */
    ghost predicate Valid()
      decreases depth
    {
      && this !in ancestors
      && (parent == null ==> ancestors == {} && depth == 0)
      && (parent != null ==> ancestors == {parent} + parent.ancestors && depth == parent.depth + 1 && parent.Valid())
    }

    /** The bindings of this environment and of each enclosing one, innermost first. */
    ghost function Chain(): (r: seq<Bindings>)
      requires Valid()
      reads this`bindings, ancestors`bindings
      ensures |r| == 1 + depth && r[0] == bindings
      decreases depth
    {
      [bindings] + (if parent == null then [] else parent.Chain())
    }

    /**
     * Creating an environment with a parent registers it among the parent's children; a new
     * environment binds nothing and has no children.
     */
    constructor(parent: LexicalEnvironment?)
      requires parent != null ==> parent.Valid()
      modifies parent
      ensures this.parent == parent && Valid()
      ensures bindings == map[] && children == []
      ensures parent != null ==> parent.children == old(parent.children) + [this]
      ensures parent != null ==> parent.bindings == old(parent.bindings)
    {
      this.parent := parent;
      ancestors := if parent == null then {} else {parent} + parent.ancestors;
      depth := if parent == null then 0 else parent.depth + 1;
      bindings := map[];
      children := [];
      new;
      if parent != null {
        parent.children := parent.children + [this];
      }
    }

    /**
     * `insert`: binds an unbound symbol to `declNode` and returns this environment; a symbol that is
     * already bound is refused and its binding kept.
     */
    method Insert(symbol: string, declNode: Node) returns (r: Result<LexicalEnvironment, SymbolAlreadyBounded>)
      requires Valid()
      modifies this`bindings
      ensures symbol in old(bindings) ==> r == Failure(SymbolAlreadyBounded(symbol)) && bindings == old(bindings)
      ensures symbol !in old(bindings) ==> r == Success(this) && bindings == old(bindings)[symbol := declNode]
      ensures symbol !in old(bindings) ==> Lookup(symbol, Simple) == Some(declNode)
      ensures Chain()[1..] == old(Chain()[1..])
    {
      if symbol in bindings {
        return Failure(SymbolAlreadyBounded(symbol));
      }
      bindings := bindings[symbol := declNode];
      return Success(this);
    }

    /**
     * `lookup`: the own binding of `symbol`; failing that, in RECURSIVE mode, the parent's recursive
     * lookup, and nothing at the root. SIMPLE mode (the default) consults this environment only.
     */
    function Lookup(symbol: string, mode: LookupMode): (r: Option<Node>)
      requires Valid()
      reads this`bindings, ancestors`bindings
      ensures symbol in bindings ==> r == Some(bindings[symbol])
      ensures mode == Simple && symbol !in bindings ==> r == None
      ensures mode == Recursive ==> r == LookupChain(Chain(), symbol)
      decreases depth
    {
      if symbol in bindings then Some(bindings[symbol])
      else if mode == Recursive && parent != null then parent.Lookup(symbol, Recursive)
      else None
    }
  }
}
