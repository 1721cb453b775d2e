/** The bookkeeping of the ACL2 constraint-system exporter: hierarchical variable
    names built from the namespace stack, their conversion to ACL2 symbols, and the
    constraint system that records variables and constraints as a circuit is
    synthesised. Linear combinations are an opaque type `LC`; the field-element
    formatting of the printed output is not modelled. */
module Acl2 {
  import opened Common

  // ---------------------------------------------------------------------------
  // Paths

  /** The parts joined by single '/' separators. */
  function Join(parts: seq<string>): (r: string)
    decreases |parts|
  {
    if |parts| == 0 then ""
    else if |parts| == 1 then parts[0]
    else Join(parts[..|parts| - 1]) + "/" + parts[|parts| - 1]
  }

  predicate NoSlash(s: string) {
    forall j :: 0 <= j < |s| ==> s[j] != '/'
  }

  /** The part `compute_path` refuses: the panic "'/' is not allowed in names". */
  datatype Panic = SlashInName | EmptyNamespaceStack

  /** `compute_path`: the namespace components followed by the name, joined by '/';
      only the name itself is checked for '/'. */
  method ComputePath(ns: seq<string>, name: string) returns (r: Result<string, Panic>)
    ensures r.Failure? <==> !NoSlash(name)
    ensures r.Failure? ==> r.error == SlashInName
    ensures r.Success? ==> r.value == Join(ns + [name])
  {
    if exists j :: 0 <= j < |name| && name[j] == '/' {
      return Failure(SlashInName);
    }
    var parts := ns + [name];
    var path := "";
    var needsSeparation := false;
    for i := 0 to |parts|
      invariant path == Join(parts[..i])
      invariant needsSeparation <==> i > 0
    {
      assert parts[..i + 1][..i] == parts[..i];
      if needsSeparation {
        path := path + "/";
      }
      path := path + parts[i];
      needsSeparation := true;
    }
    assert parts[..|parts|] == parts;
    return Success(path);
  }

  /** The index of the last '/' in `s`, or -1. */
  function LastSlash(s: string): (r: int)
    ensures -1 <= r < |s|
    ensures r >= 0 ==> s[r] == '/' && NoSlash(s[r + 1..])
    ensures r == -1 ==> NoSlash(s)
  {
    if |s| == 0 then -1
    else if s[|s| - 1] == '/' then |s| - 1
    else
      var r := LastSlash(s[..|s| - 1]);
      assert r >= 0 ==> s[r + 1..] == s[..|s| - 1][r + 1..] + [s[|s| - 1]];
      r
  }

  /** Splits a path at every '/'. */
  function Split(s: string): seq<string>
    decreases |s|
  {
    var i := LastSlash(s);
    if i < 0 then [s] else Split(s[..i]) + [s[i + 1..]]
  }

  /** A path built from components free of '/' splits back into them: distinct
      component lists give distinct paths. */
  lemma {:induction false} SplitJoin(parts: seq<string>)
    requires |parts| >= 1
    requires forall k :: 0 <= k < |parts| ==> NoSlash(parts[k])
    ensures Split(Join(parts)) == parts
    decreases |parts|
  {
    if |parts| > 1 {
      var init, last := parts[..|parts| - 1], parts[|parts| - 1];
      var prefix := Join(init);
      var s := prefix + "/" + last;
      assert Join(parts) == s;
      assert s[|prefix|] == '/';
      assert s[|prefix| + 1..] == last;
      LastSlashOfSuffix(prefix, last);
      assert s[..|prefix|] == prefix;
      SplitJoin(init);
      assert init + [last] == parts;
    }
  }

  lemma {:induction false} LastSlashOfSuffix(prefix: string, last: string)
    requires NoSlash(last)
    ensures LastSlash(prefix + "/" + last) == |prefix|
    decreases |last|
  {
    var s := prefix + "/" + last;
    if |last| > 0 {
      var init := last[..|last| - 1];
      assert s[|s| - 1] == last[|last| - 1];
      assert s[..|s| - 1] == prefix + "/" + init;
      LastSlashOfSuffix(prefix, init);
    }
  }

  // ---------------------------------------------------------------------------
  // ACL2 names

  /** Replaces every occurrence of one character by another (`str::replace`). */
  function Replace(s: string, from: char, to: char): (r: string)
    ensures |r| == |s|
    ensures forall j :: 0 <= j < |s| ==> r[j] == (if s[j] == from then to else s[j])
  {
    if |s| == 0 then "" else Replace(s[..|s| - 1], from, to) + [if s[|s| - 1] == from then to else s[|s| - 1]]
  }

  /** `acl2ize`: spaces, then slashes, become underscores. */
  function Acl2ize(s: string): (r: string)
    ensures |r| == |s|
    ensures forall j :: 0 <= j < |s| ==> r[j] == (if s[j] == ' ' || s[j] == '/' then '_' else s[j])
    ensures forall j :: 0 <= j < |r| ==> r[j] != ' ' && r[j] != '/'
  {
    Replace(Replace(s, ' ', '_'), '/', '_')
  }

  /** Converting twice changes nothing more. */
  lemma Acl2izeIdempotent(s: string)
    ensures Acl2ize(Acl2ize(s)) == Acl2ize(s)
  {
  }

  // ---------------------------------------------------------------------------
  // The constraint system

  datatype Variable = Input(index: nat) | Aux(index: nat)

  /** `Acl2Cs`: the namespace stack, the named public inputs (the first is the
      constant "1"), the named auxiliary variables, and the constraints. */
  datatype Acl2Cs<LC> = Acl2Cs(
    namespace: seq<string>,
    inputs: seq<string>,
    aux: seq<string>,
    constraints: seq<(LC, LC, LC)>)

  /** The constant "1" is input 0, and every other name is an ACL2 symbol. */
  ghost predicate Valid<LC>(cs: Acl2Cs<LC>) {
    && |cs.inputs| >= 1
    && cs.inputs[0] == "1"
    && (forall k :: 1 <= k < |cs.inputs| ==> Symbol(cs.inputs[k]))
    && (forall k :: 0 <= k < |cs.aux| ==> Symbol(cs.aux[k]))
  }

  /** A name with neither spaces nor slashes. */
  predicate Symbol(s: string) {
    forall j :: 0 <= j < |s| ==> s[j] != ' ' && s[j] != '/'
  }

  /** `Acl2Cs::new`. */
  function New<LC>(): (r: Acl2Cs<LC>)
    ensures Valid(r)
    ensures r.namespace == [] && r.aux == [] && r.constraints == [] && |r.inputs| == 1
  {
    Acl2Cs([], ["1"], [], [])
  }

  /** `alloc`: a new auxiliary variable named after the current path. */
  method Alloc<LC>(cs: Acl2Cs<LC>, annotation: string) returns (r: Result<(Acl2Cs<LC>, Variable), Panic>)
    ensures r.Failure? <==> !NoSlash(annotation)
    ensures r.Success? ==>
      var (cs', v) := r.value;
      && v == Aux(|cs.aux|)
      && cs'.aux == cs.aux + [Acl2ize(Join(cs.namespace + [annotation]))]
      && cs' == cs.(aux := cs'.aux)
    ensures r.Success? && Valid(cs) ==> Valid(r.value.0)
  {
    var index := |cs.aux|;
    var path :- ComputePath(cs.namespace, annotation);
    var cs' := cs.(aux := cs.aux + [Acl2ize(path)]);
    return Success((cs', Aux(index)));
  }

  /** `alloc_input`: a new public input named after the current path. */
  method AllocInput<LC>(cs: Acl2Cs<LC>, annotation: string) returns (r: Result<(Acl2Cs<LC>, Variable), Panic>)
    ensures r.Failure? <==> !NoSlash(annotation)
    ensures r.Success? ==>
      var (cs', v) := r.value;
      && v == Input(|cs.inputs|)
      && cs'.inputs == cs.inputs + [Acl2ize(Join(cs.namespace + [annotation]))]
      && cs' == cs.(inputs := cs'.inputs)
    ensures r.Success? && Valid(cs) ==> Valid(r.value.0) && r.value.1.index >= 1
  {
    var index := |cs.inputs|;
    var path :- ComputePath(cs.namespace, annotation);
    var cs' := cs.(inputs := cs.inputs + [Acl2ize(path)]);
    return Success((cs', Input(index)));
  }

  /** `enforce`: records the three linear combinations the closures build from
      zero. */
  function Enforce<LC>(cs: Acl2Cs<LC>, zero: LC, a: LC -> LC, b: LC -> LC, c: LC -> LC): (r: Acl2Cs<LC>)
    ensures r.constraints == cs.constraints + [(a(zero), b(zero), c(zero))]
    ensures r == cs.(constraints := r.constraints)
  {
    cs.(constraints := cs.constraints + [(a(zero), b(zero), c(zero))])
  }

  function PushNamespace<LC>(cs: Acl2Cs<LC>, name: string): (r: Acl2Cs<LC>)
    ensures r.namespace == cs.namespace + [name]
    ensures r == cs.(namespace := r.namespace)
  {
    cs.(namespace := cs.namespace + [name])
  }

  /** `pop_namespace`: asserts that there is a namespace to pop. */
  function PopNamespace<LC>(cs: Acl2Cs<LC>): (r: Result<Acl2Cs<LC>, Panic>)
    ensures r.Failure? <==> cs.namespace == []
    ensures r.Failure? ==> r.error == EmptyNamespaceStack
    ensures r.Success? ==> r.value == cs.(namespace := cs.namespace[..|cs.namespace| - 1])
  {
    if cs.namespace == [] then Failure(EmptyNamespaceStack)
    else Success(cs.(namespace := cs.namespace[..|cs.namespace| - 1]))
  }

  /** Popping undoes a push: the namespace is a stack. */
  lemma PopAfterPush<LC>(cs: Acl2Cs<LC>, name: string)
    ensures PopNamespace(PushNamespace(cs, name)) == Success(cs)
  {
    assert (cs.namespace + [name])[..|cs.namespace|] == cs.namespace;
  }

  /** The `VARS` list: the inputs without the constant, then the auxiliary
      variables. */
  function Vars<LC>(cs: Acl2Cs<LC>): seq<string> {
    (if |cs.inputs| == 0 then [] else cs.inputs[1..]) + cs.aux
  }

  /** Where each variable's name appears in `VARS`: input `i` at `i - 1`, auxiliary
      variable `j` after all the inputs. Every listed name is an ACL2 symbol. */
  lemma VarsPositions<LC>(cs: Acl2Cs<LC>)
    requires Valid(cs)
    ensures |Vars(cs)| == |cs.inputs| - 1 + |cs.aux|
    ensures forall i :: 1 <= i < |cs.inputs| ==> Vars(cs)[i - 1] == cs.inputs[i]
    ensures forall j :: 0 <= j < |cs.aux| ==> Vars(cs)[|cs.inputs| - 1 + j] == cs.aux[j]
    ensures forall k :: 0 <= k < |Vars(cs)| ==> Symbol(Vars(cs)[k])
  {
    var vs := Vars(cs);
    forall k | 0 <= k < |vs|
      ensures Symbol(vs[k])
    {
      if k < |cs.inputs| - 1 {
        assert vs[k] == cs.inputs[k + 1];
      } else {
        assert vs[k] == cs.aux[k - (|cs.inputs| - 1)];
      }
    }
  }
}
