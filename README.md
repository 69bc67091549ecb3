# Inbound-email classifier reply, modelled in Dafny

The inference handler (`inference-lambda/index.py`) wakes up when an email lands in object storage. It reads the email's headers and first body part. It normalises the body text and sends it to a hosted spam classifier. Then it mails the sender a reply that quotes the date, the subject, a 240-character sample of the body and the classifier's verdict. This project models the parts of that handler that are logic rather than service calls, and proves properties about them:

- `MessageFormat`: `format_email_msg`. It deletes every carriage return, then turns every line feed into one space. It is modelled as the source's two chained one-character `replace` calls.
- `ResponseBody`: `prepare_response`. The reply text is built by a straight-line sequence of appends, specified as the ordered concatenation of thirteen segments.
- `InferenceHandler`: the body-part collection and first-part selection of `get_email`, the reply subject and the address swap of `lambda_handler`, the argument mapping of `send_email`, and the handler as a whole. The parsed message is an input. The classifier (`predict`) and the mail dispatch are function parameters.
- `Wrappers`: the `Result` type for the handler's error paths.

Strings are `seq<char>`. Dafny 4's `char` is a Unicode scalar value, so `msg[:240]` counts the same characters as Python's code-point slicing.

## Model

| member | source | states |
|---|---|---|
| `MessageFormat.ReplaceChar` | inference-lambda/index.py:95 | one-character `str.replace`: the result length is the input length with each occurrence resized to the replacement's length; a character in neither the input nor the replacement is not in the result; the pattern is gone when the replacement does not contain it |
| `MessageFormat.ReplaceCharAppend` | inference-lambda/index.py:95 | replacing a one-character pattern splits over concatenation |
| `MessageFormat.ReplaceCharAbsent` | inference-lambda/index.py:95 | a string without the pattern is returned unchanged |
| `MessageFormat.FormatEmailMsg` | inference-lambda/index.py:94-95 | the normalised text contains no `'\r'` and no `'\n'`; its length is the input length minus the number of `'\r'` |
| `MessageFormat.FormatEmailMsgAppend` | inference-lambda/index.py:95 | normalisation commutes with concatenation |
| `MessageFormat.FormatEmailMsgChar` | inference-lambda/index.py:95 | a lone `'\r'` becomes nothing, a lone `'\n'` one space, and any other character is kept |
| `MessageFormat.FormatEmailMsgIsNormalised` | inference-lambda/index.py:95 | the two chained passes equal a one-pass per-character reference: other characters are kept in order, each `'\n'` becomes exactly one `' '`, each `'\r'` is dropped |
| `MessageFormat.CrLfBecomesOneSpace` | inference-lambda/index.py:95 | a `"\r\n"` anywhere in the text becomes a single space |
| `MessageFormat.FormatEmailMsgIdempotent` | inference-lambda/index.py:95 | normalising twice gives the same text as normalising once |
| `ResponseBody.Sample` | inference-lambda/index.py:102 | `msg[:240]` has length `min(|msg|, 240)`, is a prefix of `msg`, and equals `msg` exactly when `|msg| <= 240` |
| `ResponseBody.PrepareResponse` | inference-lambda/index.py:98-107 | the successive appends to `res` produce exactly the concatenation of the thirteen reply segments, in source order |
| `ResponseBody.ResponseTextSpelled` | inference-lambda/index.py:99-105 | the reply is greeting + date, subject sentence, sample header + sample + blank line, label sentence, confidence sentence, as one concatenation |
| `ResponseBody.ResponseFraming` | inference-lambda/index.py:99-105 | the reply starts with `We received your email sent at ` and ends with `% confidence.` |
| `ResponseBody.ResponseLength` | inference-lambda/index.py:98-107 | the reply's length is a fixed count plus the lengths of the date, the subject, the sample (`min(|msg|, 240)`), the label and the confidence |
| `ResponseBody.ResponseQuotesHeaders` | inference-lambda/index.py:99-100 | the date and the subject can be read back from the reply at their offsets from the start |
| `ResponseBody.ResponseQuotesSample` | inference-lambda/index.py:102 | the sample stands right after the sample header and is followed by `\r\n\r\n` |
| `ResponseBody.ResponseQuotesClassification` | inference-lambda/index.py:104-105 | the label and the confidence can be read back at their offsets from the end of the reply |
| `InferenceHandler.CollectPayloads` | inference-lambda/index.py:81-83 | the collected list holds every part's payload, in order, and nothing else |
| `InferenceHandler.FirstPart` | inference-lambda/index.py:90 | `messages[0]` succeeds exactly when a part exists and gives the first one; otherwise it fails with the index error |
| `InferenceHandler.GetEmail` | inference-lambda/index.py:67-91 | with at least one part, the email carries the four headers and the raw first part's payload as its message; with none it fails with the index error |
| `InferenceHandler.ReplySubject` | inference-lambda/index.py:35 | the reply subject is `Reply: ` followed by the whole original subject |
| `InferenceHandler.SendEmailRequest` | inference-lambda/index.py:110-135 | `to` becomes the only destination address, `sender` the source, and the subject and body are passed through with charset `UTF-8` |
| `InferenceHandler.ReplyEnvelope` | inference-lambda/index.py:35-36 | the reply goes to the original `from` and is sent from the original `to`, under the prefixed subject |
| `InferenceHandler.ReplyToReply` | inference-lambda/index.py:36 | a derived property of the swap, not a step the handler performs: the swap is an involution, so a reply to the reply would go back to the original recipient, from the original sender |
| `InferenceHandler.ReplyContents` | inference-lambda/index.py:30-36 | the dispatched reply is addressed back to the sender, keeps the subject after the prefix, starts with the greeting, ends with the confidence sentence, and quotes the first `min(|msg|, 240)` characters of the raw, un-normalised first part |
| `InferenceHandler.LambdaHandler` | inference-lambda/index.py:18-41 | with no body part the handler raises the index error. Otherwise the classifier is given the normalised first part; if it fails, that failure is raised and nothing is sent. Otherwise the dispatched request is the reply built from the raw part; a `ClientError` from dispatch still ends in the fixed status 200, and any other dispatch exception escapes |

## Left out

- Fetching the raw email from object storage, reading the bucket and key from the trigger event, and decoding UTF-8 (inference-lambda/index.py:68-73) are network I/O. The model starts from the parsed message.
- Header and multipart parsing by Python's `email` package (inference-lambda/index.py:75-83) is library code that is not part of this model. A parsed message is its four headers plus its parts in order. The source parses twice (headers with the default policy, parts with the compat32 parser); the model does not distinguish the two.
- A missing header (Python `None`) is not modelled: every header is a string. A missing `date` or `subject` would make the concatenations at inference-lambda/index.py:99-100 raise `TypeError`. A missing `to` or `from` is never concatenated; it would reach the mail call's `ToAddresses` or `Source` as `None` (lines 36, 120, 134).
- A message that is not multipart is not modelled. There, `get_payload()` returns the body as a string and the loop at inference-lambda/index.py:82-83 iterates over its characters. A non-empty body then fails on the first character's `get_payload()` (`AttributeError`). An empty body gives no iterations and ends in the index error at line 90, which is the model's `NoBodyPart` path. A part whose own payload is a list is not modelled either.
- `predict` (inference-lambda/index.py:44-64) is the feature encoding of a utility module that is not part of this model, then an endpoint call, then JSON decoding. It is a function parameter. It maps the normalised text either to the already-rendered label and confidence, or to a failure. A failure stands for any exception raised by the endpoint call, the decoding or the `[0][0]` indexing, and its text is opaque.
- `prob *= 100` and `str(prob)`, `str(label)` (inference-lambda/index.py:28, 104-105) are floating point and Python number formatting. The label and the confidence are opaque strings.
- The mail service call itself (inference-lambda/index.py:113-135) is a function parameter that returns a message id, a `ClientError`, or another exception. The printing of the error message or the message id (lines 137-141), and every other `print`, are output only and are left out.
- The environment lookups (inference-lambda/index.py:14-15) and the JSON body of the status dictionary (lines 38-41) are left out. Only the status code 200 is kept.
- retrain-lambda/index.py is left out entirely. It only calls the training SDK, and its only own logic is formatting `s3://bucket/prefix/...` paths.
- Running the handler twice on the same stored object with a deterministic classifier yields the same reply. This holds by construction, because every member here is a function of its inputs; no separate lemma states it.
