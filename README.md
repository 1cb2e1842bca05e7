# GCP billing dashboard setup wizard: a Dafny model of its decision logic

The wizard provisions a billing-export dataset in a Google Cloud project and
then grants an identity roles on that project. This project models the parts
of `app.py` that make decisions. The Streamlit pages and the cloud calls
around them are left out. Three pieces are modelled:

- **The IAM binding merge** inside `grant_permissions` (module `IamPolicy`
  for the specification, module `PolicyMerge` for the loop itself). The
  fetched policy is a list of bindings, each a role and its members. For each
  requested role, the merge scans for the first binding with that role. It
  appends the member `type:email` to that binding if the member is absent. If
  no binding has the role, it appends a new binding `{role, [member]}`. The
  whole document is then written back. `PolicyMerge.GrantPermissions` mirrors
  the nested loops: an outer loop over the roles, an inner scan that leaves at
  the first match, and a `found` flag. It is proved to return exactly
  `IamPolicy.Grant`, the specification function. The lemmas about `Grant`
  cover what the merge promises: coverage, idempotence, what stays untouched,
  where new entries go, no duplicate members, and the error case.
- **The export-readiness test** of `check_bq_dataset_tables` (module
  `SetupWizard`). The export is ready exactly when the table listing succeeds
  and returns two tables. A listing that raises counts as not ready.
- **The setup button** of `run_app` (module `SetupWizard`). The four session
  fields must all be non-empty. If one is empty, only the "fill in all the
  required fields" error is shown and no cloud call is made. Otherwise the
  wizard enables three services, creates the `billing_export` dataset in `EU`
  and looks it up. If the dataset is found, it lists the tables. The run is
  modelled as its outcome plus the sequence of cloud calls it issues.

The source's behaviour is modelled as written in three places:

- **Missing `bindings` key.** The scan reads `policy.get('bindings', [])`, so
  a document without a `bindings` key is scanned as empty. Appending a new
  binding then uses `policy['bindings']` and raises. So when the key is
  missing, the first requested role always fails, and nothing is written
  back. The model returns `Err(MissingBindingsKey(role))`. With no requested
  roles, the document is returned unchanged.
- **Duplicate bindings for one role.** A policy that already has two
  bindings for one role keeps both. Because of the `break` (app.py:267), only
  the first of them is touched, and later bindings with the same role pass
  through unchanged. `GrantRolesKeepsLaterDuplicates` states this, and
  `GrantRolesKeepsRolesUnique` shows that the merge never creates a second
  binding for a role itself.
- **Dataset creation failure.** `create_bq_dataset` (app.py:160) is not
  inside a `try`. The only dataset error shown (app.py:204) comes from the
  lookup at app.py:162, and the model takes that lookup's result as its
  input.

## Model

| member | source | states |
|---|---|---|
| `PolicyMerge.GrantPermissions` | app.py:250-269 | The nested-loop merge returns exactly `Grant(policy, roles, type:email)`: the document to write back, or the error raised when the document has no `bindings` key |
| `IamPolicy.Grant` | app.py:259-269 | It fails exactly when `bindings` is missing and some role is requested, and the error names the first role. On success, etag and version are unchanged, `bindings` is present iff it was before, and every original binding keeps its position, role and members (as a prefix) |
| `IamPolicy.GrantRoles` | app.py:259-269 | Processing the roles in order never removes or moves a binding, changes a role, or drops a member |
| `IamPolicy.GrantRole` | app.py:260-269 | After one role, its first binding lists the member. The list grows by one binding only if no binding had the role. Every binding except the first one for the role is unchanged |
| `IamPolicy.AddMember` | app.py:264-265 | The role is kept. The old members are a prefix of the result, which holds the member and grows by at most one. A member already present leaves the binding unchanged |
| `IamPolicy.FirstWithRole` | app.py:262-267 | The scan finds an index whose binding has the role and no earlier binding has it; it finds none only when no binding has the role |
| `IamPolicy.FirstWithRoleAt` | app.py:262-267 | A forward scan that stops at its first match has found `FirstWithRole` |
| `IamPolicy.GrantRoleAppendsMember` | app.py:263-266 | An absent member is appended after the existing members of the first binding for the role, and nothing else changes |
| `IamPolicy.GrantRoleKeepsPresentMember` | app.py:264-266 | A member already in the first binding for the role leaves the whole binding list unchanged (no duplicate) |
| `IamPolicy.GrantRoleAppendsBinding` | app.py:268-269 | A role that no binding carries gets exactly one new binding `{role, [member]}`, after all existing bindings |
| `IamPolicy.GrantRoleKeepsGranted` | app.py:259-269 | Granting one role keeps every role already granted to the member granted |
| `IamPolicy.GrantRolesCovers` | app.py:259-269 | After the merge, every requested role's first binding lists the member |
| `IamPolicy.GrantRolesNoOp` | app.py:259-269 | If every requested role is already granted to the member, the merge returns the bindings unchanged |
| `IamPolicy.GrantRolesKeepsUnrequested` | app.py:262-267 | Bindings for roles that were not requested come through unchanged, at their original positions |
| `IamPolicy.GrantRolesKeepsLaterDuplicates` | app.py:263-267 | A binding that is not the first one for its role is never touched |
| `IamPolicy.GrantRolesAppendsOnlyNewRoles` | app.py:268-269 | Each binding past the original ones is for a requested role that no original binding had, and lists only the member |
| `IamPolicy.GrantRolesKeepsMembersUnique` | app.py:264-265 | If no binding listed a member twice before the merge, none does after it |
| `IamPolicy.GrantRolesKeepsRolesUnique` | app.py:262-269 | If there was at most one binding per role before the merge, there is at most one after it |
| `IamPolicy.GrantCovers` | app.py:259-269 | A successful merge writes back a document in which every requested role is granted to the member |
| `IamPolicy.GrantIdempotent` | app.py:259-269 | Running the merge again on its own output, with the same roles and member, gives the identical document |
| `IamPolicy.ViewerExample` | app.py:259-269 | Granting `roles/viewer` to `user:b@x.com`, when only `user:a@x.com` holds it, gives one viewer binding listing a then b |
| `IamPolicy.Member` | app.py:251 | The member string is the identity type, then ':', then the email; `MemberRoundTrip` gives its inverse |
| `IamPolicy.MemberRoundTrip` | app.py:251 | The member string `type:email` splits back at its first ':' into the type and email, for any type without ':' |
| `IamPolicy.MemberInjective` | app.py:251 | Two identities whose types the form offers (`user`, `serviceAccount`) have the same member string only if they are the same identity |
| `SetupWizard.TablesReady` | app.py:62-70 | The export is ready only if the listing succeeded, and then exactly when it holds two tables |
| `SetupWizard.ReadinessCases` | app.py:63-70 | The worked cases of `TablesReady`'s contract, one by one: a failed listing, or 0, 1, or 3 or more tables, means not ready; exactly 2 tables means ready |
| `SetupWizard.FormComplete` | app.py:145 | The four-way truth test of the setup gate. It has no contract of its own: `FormCompleteIffNoEmptyField` and the first ensures of `RunSetup` characterise it |
| `SetupWizard.FormCompleteIffNoEmptyField` | app.py:145 | The gate passes exactly when none of project id, billing id, identity type and identity email is empty |
| `SetupWizard.ProvisionCalls` | app.py:155-162 | Every provisioning call targets the entered project; the three required services are enabled first, in order; the dataset lookup comes last, right after the dataset is created |
| `SetupWizard.RunSetup` | app.py:144-206 | The missing-fields error occurs exactly when a field is empty, and exactly when no cloud call is made. With a complete form the calls are exactly the provisioning calls, followed by the table listing iff the dataset was found. The dataset error occurs iff the form is complete and the lookup fails. Ready and awaiting-export follow the readiness test. Every call targets the entered project; the tables are listed iff the form is complete and the dataset was found; provisioning (three enables, create, lookup) always comes first |
| `SetupWizard.EmptyFieldBlocksSetup` | app.py:145-206 | Emptying any one of the four fields gives the missing-fields error and no cloud call, whatever the cloud would have answered |

## Left out

- Streamlit rendering, buttons, reruns and the session-state handling of `to_clear`, `check_status` and `manual_step_completed` are left out. They are framework presentation and re-execution behaviour, not decisions of the wizard.
- The "Check Again" button (app.py:196-202) is left out. It sits inside the setup button's branch, so whether it is reachable depends on Streamlit's rerun semantics. The readiness test it would repeat is `TablesReady`.
- The cloud clients are not modelled: service enabling (app.py:25-49), dataset create/get/list (app.py:52-79) and `getIamPolicy`/`setIamPolicy` (app.py:247, 254, 273). The fetched policy, the dataset lookup result and the table listing are inputs. `RunSetup` records the calls it would issue instead of performing them.
- An exception raised by `create_bq_dataset` is not modelled. It is not caught and would end the script run.
- `setup_dashboard_environment` and its `billboard/billboard.py` subprocess (app.py:209-240) are not modelled. The subprocess is an external program. `billboard/billboard.py` is not part of this model.
- The delays (`time.sleep`), the environment-variable writes in `set_gcloud_project`, and the text shown after the write-back (app.py:275-283) are left out. They are side effects that make no decision.
- `helperfunctions.py` (the billing-account lookup in Datastore) is not modelled. The billing id is a plain session field here.
- Bindings without a `role` or `members` key are not modelled; `Binding` always has both fields. In the source a binding without `role` raises `KeyError` only if the scan (app.py:263) reaches it before a match for the requested role, and a missing `members` is read only at app.py:264, for the first binding whose role matches; elsewhere such bindings pass through untouched.
- Top-level policy keys other than `bindings` are represented by `etag` and `version` only. `auditConfigs` and any other key pass through the same way. Keys of a binding other than `role` and `members` (an IAM `condition`, for example) are not represented by `Binding` either; the source matches on `role` alone (app.py:263) and passes them through untouched, so the lemmas saying a binding is unchanged speak of its role and members only.
- Concurrent edits of the policy between fetch and write-back are not modelled. The model is sequential. The fetched etag is written back unchanged, and what the server does with a stale etag is outside the model.
- The merge is modelled on values: each binding is updated by replacing it in the sequence. In the source the member list is appended in place. No two bindings share a member list, so no aliasing is lost.
