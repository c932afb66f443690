/**
 * Names for Isabelle: a preferred name is made a legal Isabelle identifier (reserved names
 * rewritten, a leading letter enforced, illegal characters replaced by the spacer) and then handed
 * to a backing namer that resolves collisions. The backing namer belongs to the Boogie library
 * and is not part of this model: its answers are an uninterpreted function of the spacer, of the
 * requests it has seen so far and of the new request.
 */
module IsaUniqueNamer {

  /** The spacer of a namer created without one. */
  const DefaultSpacer: string := "_"

  /** Names that may not be used as they are: "A" is the map from values to abstract values. */
  const ReservedNames: set<string> := {"A"}

  /** The preferred name after the reserved-name rewrite of `GetName`. */
  function ReservedRewrite(preferredName: string): (r: string)
    ensures r !in ReservedNames
    ensures preferredName == "A" ==> r == "AZZ"
    ensures preferredName != "A" ==> r == preferredName
  {
    if preferredName in ReservedNames then preferredName + "ZZ" else preferredName
  }

  predicate IsAsciiLetter(c: char)
  {
    'A' <= c <= 'Z' || 'a' <= c <= 'z'
  }

  /** The characters Isabelle identifiers may not contain. */
  predicate IsIllegal(c: char)
  {
    c == '@' || c == '#' || c == '^' || c == '*' || c == '!' || c == '&'
  }

  predicate NoIllegal(s: string)
  {
    forall i :: 0 <= i < |s| ==> !IsIllegal(s[i])
  }

  predicate StartsWithLetter(s: string)
  {
    |s| > 0 && IsAsciiLetter(s[0])
  }

  /**
   * A spacer that `Regex.Replace` inserts as it is: .NET expands `$` substitutions in a
   * replacement string (`$0` is the matched character, for instance), so only a spacer without `$`
   * is the literal text `ReplaceIllegal` inserts.
   */
  predicate LiteralSpacer(spacer: string)
  {
    '$' !in spacer
  }

  /** `s` with every illegal character replaced by `spacer`, taken as literal text. */
  function ReplaceIllegal(s: string, spacer: string): string
  {
    if |s| == 0 then ""
    else (if IsIllegal(s[0]) then spacer else [s[0]]) + ReplaceIllegal(s[1..], spacer)
  }

  /** `s`, prefixed with "isa" and the spacer unless it starts with an ASCII letter. */
  function WithLeadingLetter(s: string, spacer: string): string
  {
    if StartsWithLetter(s) then s else "isa" + spacer + s
  }

  /** The legal Isabelle identifier derived from `s`. */
  function ValidIsaString(s: string, spacer: string): string
  {
    ReplaceIllegal(WithLeadingLetter(s, spacer), spacer)
  }

  lemma {:induction false} ReplaceIllegalAppend(a: string, b: string, spacer: string)
    ensures ReplaceIllegal(a + b, spacer) == ReplaceIllegal(a, spacer) + ReplaceIllegal(b, spacer)
  {
    if |a| > 0 {
      assert (a + b)[0] == a[0];
      assert (a + b)[1..] == a[1..] + b;
      ReplaceIllegalAppend(a[1..], b, spacer);
    } else {
      assert a + b == b;
    }
  }

  /** A string free of illegal characters is left unchanged. */
  lemma {:induction false} ReplaceIllegalKeepsLegal(s: string, spacer: string)
    requires NoIllegal(s)
    ensures ReplaceIllegal(s, spacer) == s
  {
    if |s| > 0 {
      ReplaceIllegalKeepsLegal(s[1..], spacer);
    }
  }

  /** With a literal spacer free of illegal characters, the replacement leaves none. */
  lemma {:induction false} ReplaceIllegalRemovesAll(s: string, spacer: string)
    requires NoIllegal(spacer) && LiteralSpacer(spacer)
    ensures NoIllegal(ReplaceIllegal(s, spacer))
  {
    if |s| > 0 {
      ReplaceIllegalRemovesAll(s[1..], spacer);
      var head := if IsIllegal(s[0]) then spacer else [s[0]];
      var r := ReplaceIllegal(s, spacer);
      assert r == head + ReplaceIllegal(s[1..], spacer);
      forall i | 0 <= i < |r|
        ensures !IsIllegal(r[i])
      {
        if i >= |head| {
          assert r[i] == ReplaceIllegal(s[1..], spacer)[i - |head|];
        }
      }
    }
  }

  /**
   * With a one-character spacer, every illegal character is replaced by the spacer and every
   * other character is kept in place.
   */
  lemma {:induction false} ReplaceIllegalPointwise(s: string, spacer: string)
    requires |spacer| == 1
    ensures |ReplaceIllegal(s, spacer)| == |s|
    ensures forall i :: 0 <= i < |s| ==>
      ReplaceIllegal(s, spacer)[i] == (if IsIllegal(s[i]) then spacer[0] else s[i])
  {
    if |s| > 0 {
      ReplaceIllegalPointwise(s[1..], spacer);
      var r := ReplaceIllegal(s, spacer);
      forall i | 0 <= i < |s|
        ensures r[i] == (if IsIllegal(s[i]) then spacer[0] else s[i])
      {
        if i > 0 {
          assert r[i] == ReplaceIllegal(s[1..], spacer)[i - 1];
          assert s[1..][i - 1] == s[i];
        }
      }
    }
  }

  /** The identifier always starts with an ASCII letter, whatever the spacer. */
  lemma ValidIsaStringStartsWithLetter(s: string, spacer: string)
    ensures StartsWithLetter(ValidIsaString(s, spacer))
  {
    var p := WithLeadingLetter(s, spacer);
    assert StartsWithLetter(p);
    assert p == [p[0]] + p[1..];
    ReplaceIllegalAppend([p[0]], p[1..], spacer);
  }

  /** The identifier contains no illegal character when the spacer is literal and contains none. */
  lemma ValidIsaStringIsLegal(s: string, spacer: string)
    requires NoIllegal(spacer) && LiteralSpacer(spacer)
    ensures NoIllegal(ValidIsaString(s, spacer))
  {
    ReplaceIllegalRemovesAll(WithLeadingLetter(s, spacer), spacer);
  }

  /** A string not starting with a letter, the empty one included, is prefixed with "isa" and the spacer. */
  lemma ValidIsaStringPrefix(s: string, spacer: string)
    requires !StartsWithLetter(s)
    ensures ValidIsaString(s, spacer) == "isa" + ReplaceIllegal(spacer, spacer) + ReplaceIllegal(s, spacer)
  {
    ReplaceIllegalAppend("isa" + spacer, s, spacer);
    ReplaceIllegalAppend("isa", spacer, spacer);
    ReplaceIllegalKeepsLegal("isa", spacer);
  }

  /** For the default spacer: a name starting with a letter keeps its length, any other gets "isa_" in front. */
  lemma DefaultSpacerShape(s: string)
    ensures StartsWithLetter(s) ==> |ValidIsaString(s, DefaultSpacer)| == |s|
    ensures !StartsWithLetter(s) ==> ValidIsaString(s, DefaultSpacer) == "isa_" + ReplaceIllegal(s, DefaultSpacer)
    ensures ValidIsaString("", DefaultSpacer) == "isa_"
  {
    ReplaceIllegalPointwise(s, DefaultSpacer);
    if !StartsWithLetter(s) {
      ValidIsaStringPrefix(s, DefaultSpacer);
      ReplaceIllegalKeepsLegal(DefaultSpacer, DefaultSpacer);
    }
    ValidIsaStringPrefix("", DefaultSpacer);
    ReplaceIllegalKeepsLegal(DefaultSpacer, DefaultSpacer);
  }

  /** Sanitising is idempotent for every literal spacer free of illegal characters, the default one included. */
  lemma ValidIsaStringIdempotent(s: string, spacer: string)
    requires NoIllegal(spacer) && LiteralSpacer(spacer)
    ensures ValidIsaString(ValidIsaString(s, spacer), spacer) == ValidIsaString(s, spacer)
  {
    var r := ValidIsaString(s, spacer);
    ValidIsaStringStartsWithLetter(s, spacer);
    ValidIsaStringIsLegal(s, spacer);
    assert WithLeadingLetter(r, spacer) == r;
    ReplaceIllegalKeepsLegal(r, spacer);
  }

  lemma DefaultSpacerIsLegal()
    ensures NoIllegal(DefaultSpacer) && LiteralSpacer(DefaultSpacer)
  {
  }

  /** A request to the backing namer: a global name, a name in the current scope, or a scope change. */
  datatype NamerRequest<K> = GlobalName(obj: K, candidate: string) | LocalName(obj: K, candidate: string) | PushScope | PopScope

  /** A namer whose candidates are legal identifiers; collisions are resolved by the backing namer. */
  class IsaUniqueNamer<K> {
    const spacer: string
    /** The backing namer's answer to a request, given its spacer and the earlier requests. */
    const resolve: (string, seq<NamerRequest<K>>, NamerRequest<K>) -> string
    /** The requests passed to the backing namer so far, in order. */
    var requests: seq<NamerRequest<K>>

    constructor (spacer: string, resolve: (string, seq<NamerRequest<K>>, NamerRequest<K>) -> string)
      ensures this.spacer == spacer && this.resolve == resolve && requests == []
      ensures CandidatesLegal()
    {
      this.spacer := spacer;
      this.resolve := resolve;
      requests := [];
    }

    constructor WithDefaultSpacer(resolve: (string, seq<NamerRequest<K>>, NamerRequest<K>) -> string)
      ensures spacer == DefaultSpacer && this.resolve == resolve && requests == []
      ensures CandidatesLegal()
    {
      spacer := DefaultSpacer;
      this.resolve := resolve;
      requests := [];
    }

    /** A global name for `obj`: the reserved-name rewrite, then sanitising, then the backing namer. */
    method GetName(obj: K, preferredName: string) returns (name: string)
      modifies this
      ensures requests == old(requests) + [GlobalName(obj, ValidIsaString(ReservedRewrite(preferredName), spacer))]
      ensures name == resolve(spacer, old(requests), GlobalName(obj, ValidIsaString(ReservedRewrite(preferredName), spacer)))
      ensures NoIllegal(spacer) && LiteralSpacer(spacer) && old(CandidatesLegal()) ==> CandidatesLegal()
    {
      if NoIllegal(spacer) && LiteralSpacer(spacer) {
        CandidateIsLegal(preferredName, spacer);
      }
      var request := GlobalName(obj, ValidIsaString(ReservedRewrite(preferredName), spacer));
      name := resolve(spacer, requests, request);
      requests := requests + [request];
    }

    /** A name for `obj` in the current scope: sanitised, without the reserved-name rewrite. */
    method GetLocalName(obj: K, preferredName: string) returns (name: string)
      modifies this
      ensures requests == old(requests) + [LocalName(obj, ValidIsaString(preferredName, spacer))]
      ensures name == resolve(spacer, old(requests), LocalName(obj, ValidIsaString(preferredName, spacer)))
      ensures NoIllegal(spacer) && LiteralSpacer(spacer) && old(CandidatesLegal()) ==> CandidatesLegal()
    {
      if NoIllegal(spacer) && LiteralSpacer(spacer) {
        CandidateIsLegal(preferredName, spacer);
      }
      var request := LocalName(obj, ValidIsaString(preferredName, spacer));
      name := resolve(spacer, requests, request);
      requests := requests + [request];
    }

    method PushScope()
      modifies this
      ensures requests == old(requests) + [NamerRequest.PushScope]
      ensures old(CandidatesLegal()) ==> CandidatesLegal()
    {
      requests := requests + [NamerRequest.PushScope];
    }

    method PopScope()
      modifies this
      ensures requests == old(requests) + [NamerRequest.PopScope]
      ensures old(CandidatesLegal()) ==> CandidatesLegal()
    {
      requests := requests + [NamerRequest.PopScope];
    }

    /** Every candidate handed to the backing namer is a legal identifier. */
    predicate CandidatesLegal()
      reads this
    {
      forall i :: 0 <= i < |requests| && (requests[i].GlobalName? || requests[i].LocalName?) ==>
        StartsWithLetter(requests[i].candidate) && NoIllegal(requests[i].candidate)
    }
  }

  /** Candidates built by `GetName` and `GetLocalName` are legal identifiers when the spacer is legal and literal. */
  lemma CandidateIsLegal(preferredName: string, spacer: string)
    requires NoIllegal(spacer) && LiteralSpacer(spacer)
    ensures StartsWithLetter(ValidIsaString(ReservedRewrite(preferredName), spacer))
    ensures NoIllegal(ValidIsaString(ReservedRewrite(preferredName), spacer))
    ensures StartsWithLetter(ValidIsaString(preferredName, spacer)) && NoIllegal(ValidIsaString(preferredName, spacer))
  {
    ValidIsaStringStartsWithLetter(ReservedRewrite(preferredName), spacer);
    ValidIsaStringIsLegal(ReservedRewrite(preferredName), spacer);
    ValidIsaStringStartsWithLetter(preferredName, spacer);
    ValidIsaStringIsLegal(preferredName, spacer);
  }
}
