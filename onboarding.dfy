/**
 * The editor's first-visit tour (components/OnboardingTour.tsx): four
 * cards stepped through with a button, shown after a short delay and
 * hidden when the last card is confirmed. The delays are left out; `Show`
 * is what the first timer does, and `onComplete` is counted rather than
 * called.
 */
module Onboarding {
  datatype Card = Card(title: string, description: string)

  const Steps: seq<Card> := [
    Card("Welcome to HostGenie Editor", "Create stunning websites with the power of AI and clean code."),
    Card("AI Web Designer", "Describe what you want in the AI Panel, and watch your site come to life instantly."),
    Card("Live Code Editor", "Fine-tune the generated HTML/CSS directly. Changes update in real-time."),
    Card("Instant Preview", "Switch to Preview mode to see how your site looks on different devices.")
  ]

  const LastStep := |Steps| - 1
  const NextLabel := "Next"
  const FinishLabel := "Get Started"

  /** The card reached from the first after `k` presses of the button. */
  function StepAfter(k: nat): (s: nat)
    ensures s <= LastStep
    ensures s == LastStep <==> k >= LastStep
    ensures k < LastStep ==> s == k
  {
    if k < LastStep then k else LastStep
  }

  class Tour {
    var step: nat
    var isVisible: bool
    /** How often `onComplete` has been called (after the closing fade, or by the close button). */
    var completions: nat

    /** The step always names one of the cards. */
    predicate Valid()
      reads this
    {
      step <= LastStep
    }

    constructor()
      ensures Valid() && step == 0 && !isVisible && completions == 0
      ensures !Rendered()
    {
      step := 0;
      isVisible := false;
      completions := 0;
    }

    /** The delayed effect that fades the tour in. */
    method Show()
      modifies this
      requires Valid()
      ensures Valid() && isVisible && step == old(step) && completions == old(completions)
      ensures Rendered()
    {
      isVisible := true;
    }

    /** Nothing is drawn while the tour is hidden on its first card, that is, before it first appears. */
    predicate Rendered()
      reads this
    {
      isVisible || step != 0
    }

    /** The card on screen. */
    function Current(): (c: Card)
      reads this
      requires Valid()
      ensures c in Steps && c == Steps[step]
    {
      Steps[step]
    }

    /** The button reads "Get Started" exactly on the last card. */
    function ButtonLabel(): (text: string)
      reads this
      ensures text == FinishLabel <==> step == LastStep
      ensures text == NextLabel <==> step != LastStep
    {
      if step == LastStep then FinishLabel else NextLabel
    }

    /**
     * `handleNext`: on to the next card, or, on the last, fade out and
     * complete. After `k` presses from the first card the tour shows card
     * `StepAfter(k)`; a finished tour is still drawn, faded out, until its
     * parent removes it.
     */
    method Next()
      modifies this
      requires Valid()
      ensures Valid()
      ensures old(step) < LastStep ==> step == old(step) + 1 && isVisible == old(isVisible) && completions == old(completions)
      ensures old(step) == LastStep ==> step == LastStep && !isVisible && completions == old(completions) + 1
      ensures forall k: nat :: old(step) == StepAfter(k) ==> step == StepAfter(k + 1)
      ensures old(step) == LastStep ==> Rendered()
    {
      if step < LastStep {
        step := step + 1;
      } else {
        isVisible := false;
        completions := completions + 1;
      }
    }

    /** The close button completes the tour at once, whatever the card. */
    method Close()
      modifies this
      ensures step == old(step) && isVisible == old(isVisible) && completions == old(completions) + 1
    {
      completions := completions + 1;
    }
  }
}
