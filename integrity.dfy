/**
 * The integrity rules the two reference-bearing response shapes of models.py enforce when they
 * are constructed: every paragraph cites something, no URL is cited twice anywhere in one
 * response, and (for `ReferencedParagraphs`) every cited URL passes the liveness check.
 *
 * Construction is atomic: a response is either returned whole and unchanged, or refused with
 * one error. The model makes that explicit as a `Result` over the paragraph list.
 */
module Integrity {
  import opened Wrappers
  import Liveness

  /** `Reference`: an optional title and a URL (compared as the string pydantic renders it). */
  datatype Reference = Reference(title: Option<string>, url: string)

  datatype ReferencedParagraph = ReferencedParagraph(text: string, references: seq<Reference>)

  /** `EvidenceBasedReference`: its URL is a plain string and is never checked for liveness. */
  datatype EvidenceBasedReference =
    EvidenceBasedReference(url: string, title: Option<string>, supportingClaim: string)

  datatype EvidenceBasedParagraph =
    EvidenceBasedParagraph(text: string, references: seq<EvidenceBasedReference>)

  /** The `ValueError`s and field errors construction can end with. */
  datatype ValidationError =
    | EmptyReferences(index: nat)
    | DuplicateUrl(url: string)
    | UnreachableReferences(rejections: seq<Liveness.UrlRejection>)
    | TooFewReferences(indices: seq<nat>)

  // ---------------------------------------------------------------------------------------------
  // URLs of a response, in paragraph-then-reference order

  function RefUrls(rs: seq<Reference>): seq<string> {
    seq(|rs|, k requires 0 <= k < |rs| => rs[k].url)
  }

  function ParagraphUrls(ps: seq<ReferencedParagraph>): seq<string> {
    if ps == [] then [] else RefUrls(ps[0].references) + ParagraphUrls(ps[1..])
  }

  function EvidenceRefUrls(rs: seq<EvidenceBasedReference>): seq<string> {
    seq(|rs|, k requires 0 <= k < |rs| => rs[k].url)
  }

  function EvidenceUrls(ps: seq<EvidenceBasedParagraph>): seq<string> {
    if ps == [] then [] else EvidenceRefUrls(ps[0].references) + EvidenceUrls(ps[1..])
  }

  predicate AllCited(ps: seq<ReferencedParagraph>) {
    forall k :: 0 <= k < |ps| ==> ps[k].references != []
  }

  predicate AllEvidenceCited(ps: seq<EvidenceBasedParagraph>) {
    forall k :: 0 <= k < |ps| ==> ps[k].references != []
  }

  predicate Distinct(us: seq<string>) {
    forall a, b :: 0 <= a < b < |us| ==> us[a] != us[b]
  }

  /** `us` repeats nothing, neither within itself nor from `seen`. */
  predicate Clean(us: seq<string>, seen: set<string>) {
    Distinct(us) && forall k :: 0 <= k < |us| ==> us[k] !in seen
  }

  /** `u`, at position `n` of `us`, is the first URL that repeats one seen before it. */
  predicate FirstRepeatAt(us: seq<string>, seen: set<string>, n: nat, u: string) {
    n < |us| && us[n] == u && Clean(us[..n], seen) && (u in seen || u in us[..n])
  }

  // ---------------------------------------------------------------------------------------------
  // The scan both validators perform, as a function: grow `seen` one URL at a time and stop at
  // the first URL already in it.

  function ScanUrls(us: seq<string>, seen: set<string>): (r: Result<set<string>, string>)
    ensures r.Err? ==> r.error in us
  {
    if us == [] then Ok(seen)
    else if us[0] in seen then Err(us[0])
    else ScanUrls(us[1..], seen + {us[0]})
  }

  lemma CleanCons(us: seq<string>, seen: set<string>)
    requires us != []
    ensures Clean(us, seen) <==> us[0] !in seen && Clean(us[1..], seen + {us[0]})
  {
  }

  /** The scan succeeds exactly on a clean list, and then has seen every URL of it. */
  lemma {:induction false} ScanUrlsClean(us: seq<string>, seen: set<string>)
    ensures ScanUrls(us, seen).Ok? <==> Clean(us, seen)
    ensures ScanUrls(us, seen).Ok? ==> ScanUrls(us, seen).value == seen + set u | u in us
  {
    if us != [] {
      CleanCons(us, seen);
      if us[0] !in seen {
        ScanUrlsClean(us[1..], seen + {us[0]});
        assert us == [us[0]] + us[1..];
        assert (set u | u in us) == {us[0]} + set u | u in us[1..];
      }
    }
  }

  /** When the scan fails, it names the first URL that repeats an earlier one. */
  lemma {:induction false} ScanUrlsFirstRepeat(us: seq<string>, seen: set<string>)
    requires ScanUrls(us, seen).Err?
    ensures exists n: nat :: FirstRepeatAt(us, seen, n, ScanUrls(us, seen).error)
  {
    var u := ScanUrls(us, seen).error;
    if us[0] in seen {
      assert FirstRepeatAt(us, seen, 0, u);
    } else {
      var rest := us[1..];
      ScanUrlsFirstRepeat(rest, seen + {us[0]});
      var m: nat :| FirstRepeatAt(rest, seen + {us[0]}, m, u);
      assert us[..m + 1][1..] == rest[..m];
      CleanCons(us[..m + 1], seen);
      assert us[..m + 1] == [us[0]] + rest[..m];
      assert u in seen || u in us[..m + 1];
      assert FirstRepeatAt(us, seen, m + 1, u);
    }
  }

  lemma {:induction false} ScanUrlsAppend(a: seq<string>, b: seq<string>, seen: set<string>)
    ensures ScanUrls(a + b, seen) == match ScanUrls(a, seen)
                                     case Err(u) => Err(u)
                                     case Ok(s) => ScanUrls(b, s)
  {
    if a != [] {
      assert (a + b)[0] == a[0] && (a + b)[1..] == a[1..] + b;
      if a[0] !in seen {
        ScanUrlsAppend(a[1..], b, seen + {a[0]});
      }
    } else {
      assert a + b == b;
    }
  }

  // ---------------------------------------------------------------------------------------------
  // ReferencedParagraphs.ensure_unique_urls_across_paragraphs

  /** The validator's loop as a function: paragraph by paragraph, an empty one stops it, else its URLs are scanned. */
  function ScanParagraphs(ps: seq<ReferencedParagraph>, index: nat, seen: set<string>): (r: Result<set<string>, ValidationError>)
    ensures r.Ok? ==> AllCited(ps)
    ensures r.Err? ==> r.error.EmptyReferences? || r.error.DuplicateUrl?
    ensures r.Err? && r.error.EmptyReferences? ==>
              index <= r.error.index < index + |ps| && ps[r.error.index - index].references == []
  {
    if ps == [] then Ok(seen)
    else if ps[0].references == [] then Err(EmptyReferences(index))
    else match ScanUrls(RefUrls(ps[0].references), seen)
      case Err(u) => Err(DuplicateUrl(u))
      case Ok(seen') => ScanParagraphs(ps[1..], index + 1, seen')
  }

  /** What the model validator returns: the object unchanged, or the first violation. */
  function ReferencedVerdict(ps: seq<ReferencedParagraph>): (r: Result<seq<ReferencedParagraph>, ValidationError>)
    ensures r.Ok? ==> r.value == ps && AllCited(ps)
    ensures r.Err? ==> r.error.EmptyReferences? || r.error.DuplicateUrl?
    ensures r.Err? && r.error.EmptyReferences? ==> r.error.index < |ps| && ps[r.error.index].references == []
  {
    match ScanParagraphs(ps, 0, {})
    case Ok(_) => Ok(ps)
    case Err(e) => Err(e)
  }

  /** The index of the first paragraph without references, or `|ps|` when there is none. */
  function FirstUncited(ps: seq<ReferencedParagraph>): (k: nat)
    ensures k <= |ps|
    ensures AllCited(ps[..k])
    ensures k < |ps| ==> ps[k].references == []
  {
    if ps == [] then 0
    else if ps[0].references == [] then 0
    else
      var k := 1 + FirstUncited(ps[1..]);
      assert forall j :: 1 <= j < k ==> ps[..k][j] == ps[1..][..k - 1][j - 1];
      k
  }

  lemma {:induction false} ParagraphUrlsSplit(ps: seq<ReferencedParagraph>, k: nat)
    requires k <= |ps|
    ensures ParagraphUrls(ps) == ParagraphUrls(ps[..k]) + ParagraphUrls(ps[k..])
  {
    if k > 0 {
      ParagraphUrlsSplit(ps[1..], k - 1);
      assert ps[..k][1..] == ps[1..][..k - 1];
      assert ps[1..][k - 1..] == ps[k..];
    } else {
      assert ps[..0] == [];
      assert ps[0..] == ps;
    }
  }

  /**
   * An independent account of the first violation: find the first uncited paragraph `k`; a
   * repeated URL among the paragraphs before `k` is reported first; otherwise the empty
   * paragraph `k`; otherwise the scan succeeds.
   */
  lemma {:induction false} ScanParagraphsByFirstUncited(ps: seq<ReferencedParagraph>, index: nat, seen: set<string>)
    ensures var k := FirstUncited(ps);
            ScanParagraphs(ps, index, seen) ==
              match ScanUrls(ParagraphUrls(ps[..k]), seen)
              case Err(u) => Err(DuplicateUrl(u))
              case Ok(s) => if k < |ps| then Err(EmptyReferences(index + k)) else Ok(s)
  {
    if ps == [] {
    } else if ps[0].references == [] {
      assert ps[..0] == [];
    } else {
      var rest := ps[1..];
      var k, k' := FirstUncited(ps), FirstUncited(rest);
      assert k == 1 + k';
      var first := RefUrls(ps[0].references);
      assert ps[..k][1..] == rest[..k'];
      assert ParagraphUrls(ps[..k]) == first + ParagraphUrls(rest[..k']);
      ScanUrlsAppend(first, ParagraphUrls(rest[..k']), seen);
      match ScanUrls(first, seen)
      case Err(u) =>
      case Ok(s') =>
        ScanParagraphsByFirstUncited(rest, index + 1, s');
    }
  }

  /** Accepted iff every paragraph cites something and no URL repeats anywhere, even within one paragraph. */
  lemma ReferencedVerdictMeaning(ps: seq<ReferencedParagraph>)
    ensures ReferencedVerdict(ps).Ok? <==> AllCited(ps) && Distinct(ParagraphUrls(ps))
    ensures ReferencedVerdict(ps).Ok? ==> ReferencedVerdict(ps).value == ps
  {
    var k := FirstUncited(ps);
    ScanParagraphsByFirstUncited(ps, 0, {});
    ScanUrlsClean(ParagraphUrls(ps[..k]), {});
    if k == |ps| {
      assert ps[..k] == ps;
    }
  }

  /** An empty paragraph is reported only when every earlier paragraph cites something and no URL repeated before it. */
  lemma ReferencedEmptyReported(ps: seq<ReferencedParagraph>, idx: nat)
    ensures ReferencedVerdict(ps) == Err(EmptyReferences(idx)) <==>
              idx < |ps| && ps[idx].references == [] &&
              AllCited(ps[..idx]) && Distinct(ParagraphUrls(ps[..idx]))
  {
    var k := FirstUncited(ps);
    ScanParagraphsByFirstUncited(ps, 0, {});
    ScanUrlsClean(ParagraphUrls(ps[..k]), {});
  }

  /** A reported duplicate is the first URL, in paragraph-then-reference order, that repeats an earlier one. */
  lemma ReferencedDuplicateIsFirst(ps: seq<ReferencedParagraph>, u: string)
    requires ReferencedVerdict(ps) == Err(DuplicateUrl(u))
    ensures exists n: nat :: FirstRepeatAt(ParagraphUrls(ps), {}, n, u)
  {
    var k := FirstUncited(ps);
    var prefix := ParagraphUrls(ps[..k]);
    ScanParagraphsByFirstUncited(ps, 0, {});
    ScanUrlsFirstRepeat(prefix, {});
    var n: nat :| FirstRepeatAt(prefix, {}, n, u);
    ParagraphUrlsSplit(ps, k);
    var all := ParagraphUrls(ps);
    assert all[..n] == prefix[..n];
    assert FirstRepeatAt(all, {}, n, u);
  }

  /**
   * The validator: a loop over paragraphs and, inside it, over their references, keeping the set
   * of URLs seen so far.
   */
  method EnsureUniqueReferencedUrls(ps: seq<ReferencedParagraph>) returns (r: Result<seq<ReferencedParagraph>, ValidationError>)
    ensures r == ReferencedVerdict(ps)
    ensures r.Ok? <==> AllCited(ps) && Distinct(ParagraphUrls(ps))
    ensures r.Ok? ==> r.value == ps
  {
    var seen: set<string> := {};
    var i := 0;
    while i < |ps|
      invariant 0 <= i <= |ps|
      invariant ScanParagraphs(ps, 0, {}) == ScanParagraphs(ps[i..], i, seen)
    {
      var p := ps[i];
      if p.references == [] {
        ReferencedVerdictMeaning(ps);
        return Err(EmptyReferences(i));
      }
      ghost var urls := RefUrls(p.references);
      ghost var seen0 := seen;
      var j := 0;
      while j < |p.references|
        invariant 0 <= j <= |p.references|
        invariant ScanUrls(urls, seen0) == ScanUrls(urls[j..], seen)
      {
        var url := p.references[j].url;
        assert urls[j..][0] == url && urls[j..][1..] == urls[j + 1..];
        if url in seen {
          ReferencedVerdictMeaning(ps);
          return Err(DuplicateUrl(url));
        }
        seen := seen + {url};
        j := j + 1;
      }
      assert ps[i..][1..] == ps[i + 1..];
      i := i + 1;
    }
    ReferencedVerdictMeaning(ps);
    return Ok(ps);
  }

  // ---------------------------------------------------------------------------------------------
  // EvidenceBasedResponse.ensure_unique_urls_across_paragraphs

  function EvidenceVerdict(ps: seq<EvidenceBasedParagraph>): Result<seq<EvidenceBasedParagraph>, ValidationError> {
    match ScanUrls(EvidenceUrls(ps), {})
    case Ok(_) => Ok(ps)
    case Err(u) => Err(DuplicateUrl(u))
  }

  /** The evidence-based validator accepts iff all URLs are distinct, and otherwise names the first repeat. */
  lemma EvidenceVerdictMeaning(ps: seq<EvidenceBasedParagraph>)
    ensures EvidenceVerdict(ps).Ok? <==> Distinct(EvidenceUrls(ps))
    ensures EvidenceVerdict(ps).Err? ==>
              && EvidenceVerdict(ps).error.DuplicateUrl?
              && exists n: nat :: FirstRepeatAt(EvidenceUrls(ps), {}, n, EvidenceVerdict(ps).error.url)
  {
    ScanUrlsClean(EvidenceUrls(ps), {});
    if ScanUrls(EvidenceUrls(ps), {}).Err? {
      ScanUrlsFirstRepeat(EvidenceUrls(ps), {});
    }
  }

  /** The same loop without the emptiness test, which pydantic's `min_length` makes before it. */
  method EnsureUniqueEvidenceUrls(ps: seq<EvidenceBasedParagraph>) returns (r: Result<seq<EvidenceBasedParagraph>, ValidationError>)
    ensures r == EvidenceVerdict(ps)
    ensures r.Ok? <==> Distinct(EvidenceUrls(ps))
    ensures r.Ok? ==> r.value == ps
    ensures r.Err? ==> r.error.DuplicateUrl? && exists n: nat :: FirstRepeatAt(EvidenceUrls(ps), {}, n, r.error.url)
  {
    var seen: set<string> := {};
    var i := 0;
    while i < |ps|
      invariant 0 <= i <= |ps|
      invariant ScanUrls(EvidenceUrls(ps), {}) == ScanUrls(EvidenceUrls(ps[i..]), seen)
    {
      var p := ps[i];
      ghost var urls := EvidenceRefUrls(p.references);
      ghost var rest := EvidenceUrls(ps[i + 1..]);
      assert ps[i..][1..] == ps[i + 1..];
      assert EvidenceUrls(ps[i..]) == urls + rest;
      assert urls[0..] == urls;
      var j := 0;
      while j < |p.references|
        invariant 0 <= j <= |p.references|
        invariant ScanUrls(EvidenceUrls(ps), {}) == ScanUrls(urls[j..] + rest, seen)
      {
        var url := p.references[j].url;
        assert (urls[j..] + rest)[0] == url && (urls[j..] + rest)[1..] == urls[j + 1..] + rest;
        if url in seen {
          EvidenceVerdictMeaning(ps);
          return Err(DuplicateUrl(url));
        }
        seen := seen + {url};
        j := j + 1;
      }
      assert urls[j..] + rest == rest;
      i := i + 1;
    }
    assert EvidenceUrls(ps[i..]) == [];
    EvidenceVerdictMeaning(ps);
    return Ok(ps);
  }

  // ---------------------------------------------------------------------------------------------
  // Construction as pydantic runs it: field validation first (errors collected over all fields),
  // then the model validator, which runs only when no field failed.

  /** Indices, in order, of the paragraphs that break `min_length=1` (offset by `first`). */
  function UncitedIndices(ps: seq<EvidenceBasedParagraph>, first: nat): (ks: seq<nat>)
    ensures forall k :: k in ks <==> first <= k < first + |ps| && ps[k - first].references == []
    ensures forall a, b :: 0 <= a < b < |ks| ==> ks[a] < ks[b]
    ensures forall a :: 0 <= a < |ks| ==> first <= ks[a]
  {
    if ps == [] then []
    else
      var rest := UncitedIndices(ps[1..], first + 1);
      if ps[0].references == [] then [first] + rest else rest
  }

  /**
   * Building an `EvidenceBasedResponse`: every paragraph with no reference is reported, and only
   * when there is none does the uniqueness check run. Accepted iff each paragraph cites something
   * and all URLs are distinct; no URL is fetched.
   */
  function BuildEvidenceBasedResponse(ps: seq<EvidenceBasedParagraph>): (r: Result<seq<EvidenceBasedParagraph>, ValidationError>)
    ensures r.Ok? <==> AllEvidenceCited(ps) && Distinct(EvidenceUrls(ps))
    ensures r.Ok? ==> r.value == ps
    ensures r.Err? && r.error.DuplicateUrl? ==> AllEvidenceCited(ps)
    ensures r.Err? && r.error.TooFewReferences? ==>
              r.error.indices != [] && forall k :: k in r.error.indices <==> 0 <= k < |ps| && ps[k].references == []
    ensures AllEvidenceCited(ps) ==> r == EvidenceVerdict(ps)
    ensures !AllEvidenceCited(ps) ==> r == Err(TooFewReferences(UncitedIndices(ps, 0)))
  {
    var uncited := UncitedIndices(ps, 0);
    EvidenceVerdictMeaning(ps);
    assert uncited == [] <==> AllEvidenceCited(ps) by {
      if uncited != [] {
        assert uncited[0] in uncited;
      } else {
        forall k | 0 <= k < |ps| ensures ps[k].references != [] {
          assert k !in uncited;
        }
      }
    }
    if uncited != [] then Err(TooFewReferences(uncited)) else EvidenceVerdict(ps)
  }

  /** What the network answers for one URL: the HEAD outcome, and the GET outcome should one be issued. */
  datatype LinkProbe = LinkProbe(head: Liveness.HttpOutcome, get: Liveness.HttpOutcome)

  function CheckUrl(url: string, net: string -> LinkProbe): Liveness.UrlCheck {
    Liveness.ValidateUrl(url, net(url).head, net(url).get)
  }

  /** The rejections of the liveness field validator over the given URLs, in order. */
  function Rejections(us: seq<string>, net: string -> LinkProbe): (rs: seq<Liveness.UrlRejection>)
    ensures rs == [] <==> forall k :: 0 <= k < |us| ==> CheckUrl(us[k], net).verdict.Ok?
    ensures |rs| <= |us|
  {
    if us == [] then []
    else
      var rest := Rejections(us[1..], net);
      assert forall k :: 1 <= k < |us| ==> us[k] == us[1..][k - 1];
      match CheckUrl(us[0], net).verdict
      case Ok(_) => rest
      case Err(e) => [e] + rest
  }

  /** The rejections collected are exactly the failed checks of the given URLs. */
  lemma {:induction false} RejectionsAreFailures(us: seq<string>, net: string -> LinkProbe, e: Liveness.UrlRejection)
    ensures e in Rejections(us, net) <==> exists k :: 0 <= k < |us| && CheckUrl(us[k], net).verdict == Err(e)
  {
    if us != [] {
      RejectionsAreFailures(us[1..], net, e);
      if e in Rejections(us[1..], net) {
        var j :| 0 <= j < |us[1..]| && CheckUrl(us[1..][j], net).verdict == Err(e);
        assert CheckUrl(us[j + 1], net).verdict == Err(e);
      }
      if k :| 0 <= k < |us| && CheckUrl(us[k], net).verdict == Err(e) {
        if k > 0 {
          assert CheckUrl(us[1..][k - 1], net).verdict == Err(e);
        }
      }
    }
  }

  /** Every cited URL, in order, passes the liveness check. */
  predicate AllLive(ps: seq<ReferencedParagraph>, net: string -> LinkProbe) {
    forall k :: 0 <= k < |ParagraphUrls(ps)| ==> CheckUrl(ParagraphUrls(ps)[k], net).verdict.Ok?
  }

  /**
   * Building a `ReferencedParagraphs`: every reference is checked for liveness, then the model
   * validator runs, only when no reference failed. Accepted iff every URL is live, every paragraph
   * cites something and no URL repeats; the paragraphs are then returned whole.
   */
  function BuildReferencedParagraphs(ps: seq<ReferencedParagraph>, net: string -> LinkProbe): (r: Result<seq<ReferencedParagraph>, ValidationError>)
    ensures r.Ok? <==> AllLive(ps, net) && AllCited(ps) && Distinct(ParagraphUrls(ps))
    ensures r.Ok? ==> r.value == ps
    ensures r.Err? && !r.error.UnreachableReferences? ==> AllLive(ps, net)
    ensures r.Err? && r.error.UnreachableReferences? ==> !AllLive(ps, net) && r.error.rejections != []
    ensures AllLive(ps, net) ==> r == ReferencedVerdict(ps)
    ensures !AllLive(ps, net) ==> r == Err(UnreachableReferences(Rejections(ParagraphUrls(ps), net)))
  {
    ReferencedVerdictMeaning(ps);
    var dead := Rejections(ParagraphUrls(ps), net);
    if dead != [] then Err(UnreachableReferences(dead)) else ReferencedVerdict(ps)
  }
}
