/**
 * How the handler classifies the exceptions the service throws: the
 * service's message texts are what make a missing task a 404 and a reused
 * id a 409.
 */
module Classification {
  import opened JavaStrings
  import opened Model
  import opened Service
  import opened ExceptionHandling

  /** A runtime exception's response is its status and its message as body. */
  lemma RuntimeResponse(message: string, status: int)
    requires HandleRuntime(message).status == status
    ensures HandleException(RuntimeException(message)) == ResponseEntity(status, ErrorBody(message))
  {
  }

  /** The two phrases the handler looks for are already in lower case. */
  lemma PhrasesAreLowerCase()
    ensures ToLowerCase("not found") == "not found"
    ensures ToLowerCase("already exists") == "already exists"
  {
    LowerCaseFixed("not found");
    LowerCaseFixed("already exists");
  }

  /** The not-found message, cut around the phrase the handler looks for. */
  lemma NotFoundMessageParts(id: Long)
    ensures NotFoundMessage(id) == "Task " + "not found" + (" with id: " + IntToString(id))
  {
  }

  /** The duplicate-id message, cut around the phrase the handler looks for. */
  lemma AlreadyExistsMessageParts(id: Long)
    ensures AlreadyExistsMessage(id) == "A task " + "already exists" + (" with this ID: " + IntToString(id))
  {
  }

  /** The duplicate-id message has no letter f in either case. */
  lemma AlreadyExistsMessageLacksF(id: Long)
    ensures forall k :: 0 <= k < |AlreadyExistsMessage(id)| ==>
      AlreadyExistsMessage(id)[k] != 'f' && AlreadyExistsMessage(id)[k] != 'F'
  {
    var msg, pre, digits := AlreadyExistsMessage(id), "A task already exists with this ID: ", IntToString(id);
    assert msg == pre + digits;
    assert 'f' !in pre && 'F' !in pre;
    forall k | 0 <= k < |msg| ensures msg[k] != 'f' && msg[k] != 'F' {
      if k < |pre| {
        assert msg[k] == pre[k];
      } else {
        assert msg[k] == digits[k - |pre|];
      }
    }
  }

  /** The lower-cased not-found message mentions "not found". */
  lemma NotFoundMessageMatches(id: Long)
    ensures Contains(ToLowerCase(NotFoundMessage(id)), "not found")
  {
    NotFoundMessageParts(id);
    ContainsIgnoringCase(NotFoundMessage(id), "Task ", "not found", " with id: " + IntToString(id));
    PhrasesAreLowerCase();
  }

  /** The lower-cased duplicate-id message mentions "already exists". */
  lemma AlreadyExistsMessageMatches(id: Long)
    ensures Contains(ToLowerCase(AlreadyExistsMessage(id)), "already exists")
  {
    AlreadyExistsMessageParts(id);
    ContainsIgnoringCase(AlreadyExistsMessage(id), "A task ", "already exists", " with this ID: " + IntToString(id));
    PhrasesAreLowerCase();
  }

  /** Having no letter f, the duplicate-id message cannot mention "not found". */
  lemma AlreadyExistsMessageAvoidsNotFound(id: Long)
    ensures !Contains(ToLowerCase(AlreadyExistsMessage(id)), "not found")
  {
    AlreadyExistsMessageLacksF(id);
    var lowered := ToLowerCase(AlreadyExistsMessage(id));
    assert forall k :: 0 <= k < |lowered| ==> lowered[k] != 'f';
    MissingCharExcludes(lowered, "not found", 4);
  }

  /** The not-found message of any id is classified 404, body unchanged. */
  lemma NotFoundMessageIs404(id: Long)
    ensures HandleException(RuntimeException(NotFoundMessage(id))) ==
      ResponseEntity(NOT_FOUND, ErrorBody(NotFoundMessage(id)))
  {
    NotFoundMessageMatches(id);
    RuntimeResponse(NotFoundMessage(id), NOT_FOUND);
  }

  /** The duplicate-id message of any id is classified 409, body unchanged. */
  lemma AlreadyExistsMessageIs409(id: Long)
    ensures HandleException(RuntimeException(AlreadyExistsMessage(id))) ==
      ResponseEntity(CONFLICT, ErrorBody(AlreadyExistsMessage(id)))
  {
    AlreadyExistsMessageMatches(id);
    AlreadyExistsMessageAvoidsNotFound(id);
    RuntimeResponse(AlreadyExistsMessage(id), CONFLICT);
  }

  /** The service's argument errors are classified 400 and keep their text. */
  lemma ArgumentErrorsAre400()
    ensures HandleException(IllegalArgumentException(TASK_ID_MANDATORY)) ==
      ResponseEntity(BAD_REQUEST, ErrorBody(TASK_ID_MANDATORY))
    ensures HandleException(IllegalArgumentException(ID_MISMATCH)) ==
      ResponseEntity(BAD_REQUEST, ErrorBody(ID_MISMATCH))
  {
  }
}
