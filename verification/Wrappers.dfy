/** Small datatypes shared by the modules of the project. */
module Wrappers {
  datatype Option<+T> = None | Some(value: T)
}

/** A text in pieces. */
module Pieces {
  function Concat(pieces: seq<string>): string {
    if pieces == [] then "" else pieces[0] + Concat(pieces[1..])
  }

  lemma {:induction false} ConcatSnoc(pieces: seq<string>, piece: string)
    ensures Concat(pieces + [piece]) == Concat(pieces) + piece
  {
    if pieces == [] {
      assert [] + [piece] == [piece] && [piece][1..] == [];
    } else {
      assert (pieces + [piece])[1..] == pieces[1..] + [piece];
      ConcatSnoc(pieces[1..], piece);
    }
  }
}

/** Return codes of the JV-Link component that the wrapper tells apart. */
module ErrorCodes {
  const JV_SUCCESS := 0
  const JV_ERROR_NO_DATA := -1
  const JV_ERROR_FILE_SWITCHING := -1
  const JV_ERROR_DOWNLOAD_IN_PROGRESS := -3
  const JV_ERROR_FILE_CORRUPTED_HEADER := -402
  const JV_ERROR_FILE_CORRUPTED_RACING := -403
  const JV_ERROR_DOWNLOAD_FAILED := -502

  predicate IsCorruption(code: int) {
    code == JV_ERROR_FILE_CORRUPTED_HEADER || code == JV_ERROR_FILE_CORRUPTED_RACING
  }
}
