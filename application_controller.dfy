/**
 * `gva.controller.ApplicationController`: the history token names the section on show.
 * `getPathSegments` cuts the token into path segments, `refresh` hands the section to the
 * controller registered under the first segment, and the history handler refreshes only
 * when the token has changed.
 *
 * The section controllers and the footer controller are outside this model; what `refresh`
 * asks of them is recorded as a list of effects, in the order the calls are made.
 */
module ApplicationController {
  import opened JsRuntime

  // ---------------------------------------------------------------------
  // Path segments
  // ---------------------------------------------------------------------

  /** The history token with one leading and one trailing `/` removed. */
  function StripSlashes(token: string): string {
    var a := if |token| > 0 && token[0] == '/' then token[1..] else token;
    if |a| > 0 && a[|a| - 1] == '/' then a[..|a| - 1] else a
  }

  /** `getPathSegments`: the stripped token split on `/`. */
  function PathSegments(token: string): seq<string> {
    Split(StripSlashes(token), '/')
  }

  /**
   * Stripping keeps a contiguous part of the token, losing at most one character at each
   * end, and only slashes; a token without slashes at its ends is kept whole.
   */
  lemma StripSlashesBounds(token: string)
    ensures var r := StripSlashes(token);
      var lo := if |token| > 0 && token[0] == '/' then 1 else 0;
      |token| - 2 <= |r| <= |token| && lo + |r| <= |token| && r == token[lo..lo + |r|]
      && (lo + |r| < |token| ==> token[lo + |r|] == '/' && lo + |r| == |token| - 1)
    ensures (|token| == 0 || (token[0] != '/' && token[|token| - 1] != '/')) ==> StripSlashes(token) == token
  {
  }

  /** The segments never form an empty list. */
  lemma PathSegmentsNonEmpty(token: string)
    ensures |PathSegments(token)| >= 1
  {
  }

  /** The empty token, `/` and `//` all give the single empty segment of the home page. */
  lemma HomePathSegments(token: string)
    requires |token| <= 2 && forall i :: 0 <= i < |token| ==> token[i] == '/'
    ensures PathSegments(token) == [""]
  {
    if |token| == 2 {
      assert token[1..][..0] == "";
    }
    assert StripSlashes(token) == "";
    assert IndexOf("", '/') == -1;
  }


  /** No segment contains `/`, and joining the segments with `/` gives back the stripped token. */
  lemma PathSegmentsJoin(token: string)
    ensures forall i :: 0 <= i < |PathSegments(token)| ==> '/' !in PathSegments(token)[i]
    ensures Join(PathSegments(token), '/') == StripSlashes(token)
  {
    SplitPartsLackSeparator(StripSlashes(token), '/');
    JoinSplit(StripSlashes(token), '/');
  }

  // ---------------------------------------------------------------------
  // Refresh
  // ---------------------------------------------------------------------

  /**
   * A section controller. `id` stands for the object's identity (each registered section
   * gets its own controller); `navigates` says whether it has a `navigate` method.
   */
  datatype Controller = Controller(id: nat, navigates: bool)

  /** The calls `refresh` makes on other objects, in order. */
  datatype Effect =
    | Disable(controller: Controller)
    | Enable(controller: Controller)
    | ScrollTo(controller: Controller, duration: int)
    | FooterRefresh
    | Navigate(controller: Controller, subsections: seq<string>, changed: bool)

  /** The registered controllers by slug, and whether a footer controller exists. */
  datatype Sections = Sections(bySlug: map<string, Controller>, hasFooter: bool)

  /** `_currentToken`, `_currentController` and `_firstRefresh`; `None` is `null`. */
  datatype State = State(token: Option<string>, current: Option<Controller>, firstRefresh: bool)

  /** The new state, the calls made, and whether the refresh stopped with a `TypeError`. */
  datatype Outcome = Outcome(state: State, effects: seq<Effect>, threw: bool)

  /**
   * `refresh` with the history token `token`. Without a footer controller, the call on
   * `_footerController` throws once the new controller is enabled and scrolled to, and
   * `_firstRefresh` is not cleared.
   */
  function RefreshStep(sections: Sections, s: State, token: string): Outcome {
    var segments := PathSegments(token);
    if segments[0] in sections.bySlug then
      var c := sections.bySlug[segments[0]];
      var isCurrent := s.current == Some(c);
      var disable := if s.current.Some? && s.current.value != c then [Disable(s.current.value)] else [];
      var entered := disable + [Enable(c), ScrollTo(c, if s.firstRefresh then 0 else 450)];
      if !sections.hasFooter then
        Outcome(s.(current := Some(c)), entered, true)
      else
        var navigate := if c.navigates then [Navigate(c, segments[1..], s.firstRefresh || !isCurrent)] else [];
        Outcome(s.(current := Some(c), firstRefresh := false), entered + [FooterRefresh] + navigate, false)
    else if segments[0] == "" then
      Outcome(s.(firstRefresh := false), if sections.hasFooter then [FooterRefresh] else [], false)
    else
      Outcome(s.(firstRefresh := false), [], false)
  }

  /** `_onHistoryNavigate`: a refresh only when the token differs from the current one. */
  function HistoryNavigate(sections: Sections, s: State, token: string): Outcome {
    if s.token == Some(token) then Outcome(s, [], false)
    else RefreshStep(sections, s.(token := Some(token)), token)
  }

  /**
   * A registered first segment selects its controller, which is enabled and becomes current;
   * the previous controller, and only it, is disabled, and only when it is a different one.
   */
  lemma RefreshSelectsController(sections: Sections, s: State, token: string)
    requires PathSegments(token)[0] in sections.bySlug
    ensures var c := sections.bySlug[PathSegments(token)[0]];
      var o := RefreshStep(sections, s, token);
      o.state.current == Some(c) && Enable(c) in o.effects
      && (forall p :: Disable(p) in o.effects <==> s.current == Some(p) && p != c)
  {
    var c := sections.bySlug[PathSegments(token)[0]];
    var o := RefreshStep(sections, s, token);
    forall p ensures Disable(p) in o.effects <==> s.current == Some(p) && p != c {
      if Disable(p) in o.effects {
        var k :| 0 <= k < |o.effects| && o.effects[k] == Disable(p);
        assert k == 0;
      }
    }
  }

  /** The scroll to the new section is immediate on the first refresh and animated after it. */
  lemma RefreshScrolls(sections: Sections, s: State, token: string)
    requires PathSegments(token)[0] in sections.bySlug
    ensures var c := sections.bySlug[PathSegments(token)[0]];
      ScrollTo(c, if s.firstRefresh then 0 else 450) in RefreshStep(sections, s, token).effects
  {
  }

  /**
   * The section controller, when it can navigate, is last told the segments after the first,
   * which with the first segment make up the stripped token; it is told the section changed
   * on the first refresh or when it was not already current.
   */
  lemma RefreshSubsections(sections: Sections, s: State, token: string)
    requires PathSegments(token)[0] in sections.bySlug && sections.hasFooter
    requires sections.bySlug[PathSegments(token)[0]].navigates
    ensures var segments := PathSegments(token);
      var c := sections.bySlug[segments[0]];
      var o := RefreshStep(sections, s, token);
      |o.effects| >= 1
      && o.effects[|o.effects| - 1] == Navigate(c, segments[1..], s.firstRefresh || s.current != Some(c))
      && (|segments| >= 2 ==> segments[0] + "/" + Join(segments[1..], '/') == StripSlashes(token))
  {
    var segments := PathSegments(token);
    PathSegmentsJoin(token);
    if |segments| >= 2 {
      JoinCons(segments[0], segments[1..], '/');
      assert [segments[0]] + segments[1..] == segments;
    }
  }

  /**
   * A first segment with no controller leaves the current controller as it is and disables
   * nothing; on the home page (an empty first segment) only the footer is refreshed.
   */
  lemma RefreshUnknownSection(sections: Sections, s: State, token: string)
    requires PathSegments(token)[0] !in sections.bySlug
    ensures var o := RefreshStep(sections, s, token);
      o.state.current == s.current && !o.threw
      && o.effects == (if PathSegments(token)[0] == "" && sections.hasFooter then [FooterRefresh] else [])
  {
  }

  /**
   * A refresh fails exactly when it selects a controller and there is no footer; every
   * other refresh clears `_firstRefresh`. The token is never changed by a refresh.
   */
  lemma RefreshClearsFirstRefresh(sections: Sections, s: State, token: string)
    ensures var o := RefreshStep(sections, s, token);
      (o.threw <==> PathSegments(token)[0] in sections.bySlug && !sections.hasFooter)
      && (!o.threw ==> !o.state.firstRefresh)
      && o.state.token == s.token
  {
  }

  /** The same token twice in a row: the second navigation changes nothing and calls nothing. */
  lemma HistoryNavigateRepeat(sections: Sections, s: State, token: string)
    ensures var o := HistoryNavigate(sections, s, token);
      o.state.token == Some(token)
      && HistoryNavigate(sections, o.state, token) == Outcome(o.state, [], false)
  {
    RefreshClearsFirstRefresh(sections, s.(token := Some(token)), token);
  }

  /** A new token is recorded and refreshed with; the previous token plays no other part. */
  lemma HistoryNavigateNewToken(sections: Sections, s: State, token: string)
    requires s.token != Some(token)
    ensures var o := HistoryNavigate(sections, s, token);
      o == RefreshStep(sections, s.(token := Some(token)), token)
      && o.state.token == Some(token)
      && o.effects == RefreshStep(sections, s, token).effects
  {
  }

  // ---------------------------------------------------------------------
  // The controller's closure state
  // ---------------------------------------------------------------------

  /** The application controller once its sections are registered. */
  class ApplicationController {
    const sections: Sections
    var currentToken: Option<string>
    var currentController: Option<Controller>
    var firstRefresh: bool
    /** The calls made so far on the section and footer controllers. */
    var effects: seq<Effect>

    function CurrentState(): State
      reads this
    {
      State(currentToken, currentController, firstRefresh)
    }

    constructor (sections: Sections)
      ensures this.sections == sections
      ensures CurrentState() == State(None, None, true) && effects == []
    {
      this.sections := sections;
      currentToken := None;
      currentController := None;
      firstRefresh := true;
      effects := [];
    }

    /** `refresh` on the history token; `threw` when it stopped with a `TypeError`. */
    method Refresh(token: string) returns (threw: bool)
      modifies this
      ensures var o := RefreshStep(sections, old(CurrentState()), token);
        CurrentState() == o.state && effects == old(effects) + o.effects && threw == o.threw
    {
      ghost var o := RefreshStep(sections, CurrentState(), token);
      var segments := PathSegments(token);
      var calls: seq<Effect> := [];
      if segments[0] in sections.bySlug {
        var controller := sections.bySlug[segments[0]];
        if currentController.Some? && currentController.value != controller {
          calls := calls + [Disable(currentController.value)];
        }
        var isCurrent := currentController == Some(controller);
        currentController := Some(controller);
        calls := calls + [Enable(controller), ScrollTo(controller, if firstRefresh then 0 else 450)];
        if !sections.hasFooter {
          effects := effects + calls;
          return true;
        }
        calls := calls + [FooterRefresh];
        if controller.navigates {
          var subsections := segments[1..];
          calls := calls + [Navigate(controller, subsections, firstRefresh || !isCurrent)];
        }
        assert calls == o.effects;
      } else if segments[0] == "" {
        if sections.hasFooter {
          calls := [FooterRefresh];
        }
      }
      effects := effects + calls;
      firstRefresh := false;
      threw := false;
    }

    /** `_onHistoryNavigate` with the token the history reports. */
    method OnHistoryNavigate(token: string) returns (threw: bool)
      modifies this
      ensures var o := HistoryNavigate(sections, old(CurrentState()), token);
        CurrentState() == o.state && effects == old(effects) + o.effects && threw == o.threw
    {
      threw := false;
      if Some(token) != currentToken {
        currentToken := Some(token);
        threw := Refresh(token);
      }
    }
  }
}
