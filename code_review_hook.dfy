/**
 * The state behind the one-shot review screen (`useCodeReview`): the code,
 * the review, whether a review is loading, and the last error. Each React
 * state variable is a field and each setter a plain assignment; the service
 * call runs to completion inside `ReviewCode`, with its reply given.
 */
module CodeReviewHook {
  import opened Wrappers
  import opened JsStrings
  import CodeReviewService

  const EmptyCodeMessage: string := "Please enter some code to review"

  class CodeReview {
    var code: string
    var review: string
    var isLoading: bool
    var error: Option<string>

    /** The initial state of the hook. */
    constructor()
      ensures code == [] && review == [] && !isLoading && error == None
    {
      code, review, isLoading, error := [], [], false, None;
    }

    /** `setCode`. */
    method SetCode(c: string)
      modifies this
      ensures code == c && review == old(review) && isLoading == old(isLoading) && error == old(error)
    {
      code := c;
    }

    /**
     * `reviewCode`: blank code only sets the error. Otherwise the service is
     * called: its text becomes the review with no error, or its message
     * becomes the error with the review kept; loading is off either way.
     */
    method ReviewCode(reply: CodeReviewService.Reply) returns (requested: bool)
      modifies this
      ensures requested <==> !IsBlank(code)
      ensures code == old(code)
      ensures !requested ==> error == Some(EmptyCodeMessage) && review == old(review) && isLoading == old(isLoading)
      ensures requested ==> !isLoading
      ensures requested && reply.Replied? ==>
        review == CodeReviewService.ReviewText(reply.data) && error == None
      ensures requested && reply.Rejected? ==>
        review == old(review) && error == Some(CodeReviewService.ClassifyError(reply.error))
    {
      if IsBlank(code) {
        error := Some(EmptyCodeMessage);
        return false;
      }
      requested := true;
      isLoading := true;
      error := None;
      match CodeReviewService.ReviewCode(code, reply) {
        case Success(text) =>
          review := text;
        case Failure(message) =>
          error := Some(message);
      }
      isLoading := false;
    }

    /** `clearReview`: review and error are emptied; the code stays. */
    method ClearReview()
      modifies this
      ensures review == [] && error == None
      ensures code == old(code) && isLoading == old(isLoading)
    {
      review := [];
      error := None;
    }

    /** `clearAll`: code, review and error are emptied. */
    method ClearAll()
      modifies this
      ensures code == [] && review == [] && error == None
      ensures isLoading == old(isLoading)
    {
      code := [];
      review := [];
      error := None;
    }
  }
}
