# Inventory and employee stores, modelled in Dafny

This project models the logic of a console tool for inventory and employee management. It covers three stores and the objects and validators around them:

- **Product store.** `InventoryManager` keeps a catalog of products in a JSON file, keyed by product id.
  - The catalog is a map plus the sequence of its keys, because Python dicts iterate in insertion order.
  - The file is a field holding `Missing`, `Corrupt` or `Stored(catalog)`.
  - Modelled: the product-id and product checks, add, update and remove, search by name, the total value, and the three filters.
- **Product object.** `Product` covers the discount, the stock test, `to_dict`, and the quantity and price updates it writes back to the catalog file.
- **User stores.**
  - `UserManager` is a TinyDB table, modelled as the sequence of its documents.
  - `MockUserManager` is a list-backed store persisted to a JSON file. Its update skips `None` values.
- **Employee and Manager.**
  - `Employee` builds its fields from a user record and has an eight-field dictionary. Its save and update calls go to the user store and swallow that store's errors.
  - `Manager` has a role and can assign roles and add, update, delete and find employees.
- **User validation.** `UserValidator` provides:
  - the schema's field rules, written as character-class predicates;
  - the `DD/MM/YYYY` birthday with its at-least-18 rule;
  - the outcome of `validate`;
  - `get_error_message`.

The shared modules are:

- `Wrappers`: Option, Result, Outcome and the exception kinds.
- `Text`: ASCII character classes, lower-casing, stripping, and the meaning of a trailing `$`.
- `Sequences`: filter, first index, remove-first.
- `Values`: JSON-like values, Python `==` on them, and email lookup.
- `Catalog`: numbers, product records, the ordered catalog, totals and filters.

Each source file has a module: `Inventory`, `Products`, `UsersDatabase`, `MockUsers`, `Employees`, `Managers` and `UserValidation`.

Methods change state as the source does:

- `InventoryManager`, `Product`, `UserManager` and `MockUserManager` are classes whose fields the methods reassign.
- The loops of `search_product_by_name`, `get_total_inventory_value`, `update_quantity`, `update_price`, the mock `find_user` and the mock `update_user` are `while` loops. Each is proved against a specification function.

The date and the input values the program asks for are parameters:

- `today` stands for `datetime.now()`;
- the price threshold and category code stand for `input()`.

## Model

| member | source | states |
|---|---|---|
| Catalog.Add | inventory/product.py:33 | Adding quantities adds their values; the sum is an int only when both are ints |
| Catalog.Put | inventory/inventory_manager.py:47 | `product_data[id] = record`: the entry is set, a new id is appended to the key order, an existing id keeps its place |
| Catalog.Delete | inventory/inventory_manager.py:136 | `del product_data[id]`: the entry and its key are gone, the other keys keep their order |
| Catalog.Items | inventory/inventory_manager.py:109 | `items()` lists each key with its record, in insertion order |
| Catalog.ItemsMembership | inventory/inventory_manager.py:109 | A pair is among the items exactly when the catalog maps that id to that record |
| Catalog.SumValuesAppend | inventory/inventory_manager.py:123-124 | One more loop step adds price × quantity of the next key |
| Catalog.TotalValuePutNew | inventory/inventory_manager.py:47 | Adding a new product raises the total by its price × quantity |
| Catalog.TotalValuePutExisting | inventory/inventory_manager.py:67 | Replacing a product changes the total by the difference of the two values |
| Catalog.TotalValueDelete | inventory/inventory_manager.py:136 | Removing a product lowers the total by its value |
| Catalog.TotalValueExamples | test_inventory_manager.py:100-108 | The empty catalog totals 0; the two-product fixture totals 9500 |
| Catalog.Loaded | inventory/inventory_manager.py:21-32 | Reading gives the stored catalog, and an empty one for a missing or corrupt file |
| Catalog.FilterByPriceSpec | inventory/inventory_manager.py:148 | Exactly the pairs with price below the threshold, kept in catalog order |
| Catalog.FilterByCategorySpec | inventory/inventory_manager.py:157-174 | Codes 1 to 4 (after stripping) select exactly the pairs of Electronics, Furniture, Footwear or Clothes; any other code gives None |
| Catalog.FilterLowQuantitySpec | inventory/inventory_manager.py:180-185 | Exactly the pairs with quantity below 5, or None when there are none |
| Catalog.FirstKeyWhere | inventory/product.py:31-32 | A key whose record satisfies the test and before which, in insertion order, no key's record does; none exactly when no record does |
| Catalog.FirstKeyWhereAt | inventory/product.py:31-36 | A scan that has passed `i` non-matching keys and matches at `i` finds key `i`; a full scan without a match finds none |
| Catalog.ScanForKey | inventory/product.py:46-51 | The loop over the entries in insertion order stops at exactly the key the first-hit search names, or at none when no entry passes the test |
| Catalog.FindByName | inventory/inventory_manager.py:109-113 | None exactly when no product's name equals the name ignoring case; otherwise the record at a position before which, in insertion order, no name matches |
| Products.Discounted | inventory/product.py:73-74 | `max(0, price - price*d/100)`: never negative, and either 0 or the discounted price |
| Products.DiscountNeverRaises | inventory/product.py:70-74 | For a percentage from 0 to 100 and a non-negative price, the discount never raises the price |
| Products.DiscountExample | tests/test_product.py:45-48 | 1000 at 10% becomes 900 |
| Products.Product.constructor | inventory/product.py:6-12 | The four fields are the arguments; `to_dict()` holds exactly those four values |
| Products.Product.ApplyDiscount | inventory/product.py:70-74 | Outside [0, 100]: ValueError and the price unchanged; inside: the discounted price |
| Products.Product.ReadProductData | inventory/product.py:14-22 | A missing file raises FileNotFoundError, a corrupt one a JSON error; otherwise the catalog is read in |
| Products.Product.SaveProductData | inventory/product.py:76-79 | The file holds the in-memory catalog |
| Products.Product.UpdateQuantity | inventory/product.py:25-39 | A missing file fails with FileNotFoundError and a corrupt one with JSONDecodeError, changing nothing; otherwise the first entry named exactly like the product gets the quantity added, is saved and its new quantity returned; no match returns None and saves nothing |
| Products.Product.UpdatePrice | inventory/product.py:41-57 | A missing file fails with FileNotFoundError and a corrupt one with JSONDecodeError, changing nothing; otherwise the product's price is set; the first entry whose name equals it ignoring case gets the price and is saved; no match saves nothing |
| Products.Product.ToDict | inventory/product.py:81-89 | The dictionary holds exactly the product's name, quantity, price and category |
| Products.Product.IsInStock | inventory/product.py:67-68 | In stock exactly when the quantity, int or float, is above zero |
| Products.OutOfStockIsLowQuantity | inventory/product.py:67-68 | A product not in stock is listed by the low-quantity filter of any catalog that holds it |
| Inventory.ValidProductId | inventory/inventory_manager.py:73-79 | Passes exactly when the id matches `^[A-Z]\d{3}$`, else ValueError |
| Inventory.ValidProductIdExactly | inventory/inventory_manager.py:76-79 | The id is one upper-case letter and three digits, optionally followed by one newline |
| Inventory.ValidateProduct | inventory/inventory_manager.py:81-103 | Passes exactly when every field is truthy, the name matches, the category is listed and price and quantity are floats; otherwise TypeError for a falsy field, then NameError for the name, then NameError for an unlisted category, then TypeError for a non-float price or quantity |
| Inventory.NameShapeExamples | inventory/inventory_manager.py:86-87 | The names the source gives as examples match the name pattern; a one-letter name does not |
| Inventory.FootwareTypo | inventory/inventory_manager.py:89 | "footware" is accepted and the correctly spelled lower-case "footwear" is refused |
| Inventory.IntegerPriceRefused | inventory/inventory_manager.py:100-101 | Otherwise valid, an integer price or quantity is a TypeError |
| Inventory.LowerCaseCategoryNeverListed | inventory/inventory_manager.py:157-169 | A product whose category is one of the list's lower-case entries is never listed by the category filter, whatever the code |
| Inventory.InventoryManager.constructor | inventory/inventory_manager.py:13-16 | Empty catalog in memory, the flag unset |
| Inventory.InventoryManager.ReadProductData | inventory/inventory_manager.py:18-32 | Returns the loaded catalog. Memory takes the stored catalog. The flag is set once a file exists, even a corrupt one |
| Inventory.InventoryManager.SaveProduct | inventory/inventory_manager.py:34-39 | The file holds the in-memory catalog |
| Inventory.InventoryManager.AddProduct | inventory/inventory_manager.py:41-53 | An existing id changes nothing and raises nothing. A bad id or product raises with the file unchanged. Otherwise the file holds the old catalog with the product's dictionary put under the id |
| Inventory.InventoryManager.UpdateProduct | inventory/inventory_manager.py:55-71 | An absent id returns False with nothing changed. An invalid product raises. Otherwise only that entry is replaced, saved, and True is returned |
| Inventory.InventoryManager.RemoveProduct | inventory/inventory_manager.py:127-140 | A present id is deleted and saved; an absent id leaves the file as it was |
| Inventory.InventoryManager.SearchProductByName | inventory/inventory_manager.py:105-113 | The loop returns the first product named like the argument ignoring case, or none |
| Inventory.InventoryManager.GetTotalInventoryValue | inventory/inventory_manager.py:115-125 | The loop's sum equals the total of price × quantity over the loaded catalog |
| Inventory.InventoryManager.FilterProductByPrice | inventory/inventory_manager.py:142-149 | The result is the price filter of the loaded catalog |
| Inventory.InventoryManager.FilterProductByCategory | inventory/inventory_manager.py:151-174 | The result is the category filter of the loaded catalog |
| Inventory.InventoryManager.FilterProductWithLowQuantity | inventory/inventory_manager.py:176-185 | The result is the low-quantity filter of the loaded catalog |
| Values.Find | employee/users_database.py:23-26 | The first record whose email equals the argument, none exactly when no record has it |
| UsersDatabase.MergeMatching | employee/users_database.py:41 | Every record with the email gets the update's fields, which win; other records and other fields are unchanged |
| UsersDatabase.UserManager.constructor | employee/users_database.py:14-17 | The store starts with the given table |
| UsersDatabase.UserManager.GetAllUsers | employee/users_database.py:19-21 | All documents, in order |
| UsersDatabase.UserManager.FindUser | employee/users_database.py:23-26 | The head of the search result is the first record with the email |
| UsersDatabase.UserManager.AddUser | employee/users_database.py:28-35 | No email: KeyError. A known email: UserExistsError and no change. Otherwise the record is appended and the success message returned |
| UsersDatabase.UserManager.UpdateUser | employee/users_database.py:37-44 | Unknown email: UserNotFoundError and no change; otherwise every match is merged |
| UsersDatabase.UserManager.DeleteUser | employee/users_database.py:46-53 | Unknown email: UserNotFoundError and no change; otherwise exactly the non-matching records remain, in order |
| UsersDatabase.UserManager.SearchUsers | employee/users_database.py:64-71 | Exactly the records meeting every criterion, in table order; UserNotFoundError when there are none |
| UsersDatabase.AddKeepsEmailsUnique | employee/users_database.py:28-35 | Adding only fresh emails keeps the emails of the table distinct |
| UsersDatabase.FindAfterAdd | employee/users_database.py:32-35 | After a successful add, finding the email returns the added record |
| UsersDatabase.UpdateWithoutEmailKeepsUnique | employee/users_database.py:37-44 | An update that does not name `email` keeps emails distinct |
| UsersDatabase.FindAfterUpdate | employee/users_database.py:37-44 | After an update that keeps the email, the lookup returns the old record merged with the update |
| UsersDatabase.UpdateCanBreakUniqueness | employee/users_database.py:41 | An update carrying another user's email leaves two records with that email |
| UsersDatabase.DeleteRemovesEveryMatch | employee/users_database.py:51 | After delete no record has the email; every other record remains, in order |
| MockUsers.LoadedUsers | tests/test_users_database.py:32-38 | A missing or corrupt file loads as the empty list |
| MockUsers.ScanEmail | tests/test_users_database.py:58-63 | The first index whose email equals the argument; KeyError when an earlier record has no email; none when no record matches |
| MockUsers.ScanAgreesWithFind | tests/test_users_database.py:58-63 | When every record has an email, the scan finds the same record as the table lookup |
| MockUsers.NonNull | tests/test_users_database.py:83-85 | The update's fields whose value is not None |
| MockUsers.Overwrite | tests/test_users_database.py:83-85 | The loop leaves the user with every non-None update value written over it |
| MockUsers.OverwriteSkipsNone | tests/test_users_database.py:84 | A None in the update leaves that field as it was; any other value replaces it |
| MockUsers.MockUserManager.constructor | tests/test_users_database.py:28-30 | The user list is the loaded file |
| MockUsers.MockUserManager.LoadData | tests/test_users_database.py:32-38 | The user list is the file's list, or empty when the file is missing or corrupt |
| MockUsers.MockUserManager.SaveData | tests/test_users_database.py:40-43 | The file holds the user list |
| MockUsers.MockUserManager.GetAllUsers | tests/test_users_database.py:54-56 | The user list |
| MockUsers.MockUserManager.IndexOfEmail | tests/test_users_database.py:58-63 | The loop's result is the scan's |
| MockUsers.MockUserManager.FindUser | tests/test_users_database.py:58-63 | The first user with the email, None, or KeyError as the scan says |
| MockUsers.MockUserManager.AddUser | tests/test_users_database.py:45-52 | A known email: UserExistsError and no change; otherwise appended and saved |
| MockUsers.MockUserManager.SearchUsers | tests/test_users_database.py:65-74 | Exactly the users meeting every criterion, in order; UsersNotFoundError when there are none |
| MockUsers.MockUserManager.UpdateUser | tests/test_users_database.py:76-86 | Unknown email: UserNotFoundError and no change; otherwise only that user gets the non-None values, and the list is saved |
| MockUsers.MockUserManager.DeleteUser | tests/test_users_database.py:88-95 | Unknown email: UserNotFoundError and no change; otherwise exactly that user is removed, the rest keep their order, and the list is saved |
| MockUsers.ScenarioLookups | tests/test_users_database.py:137-183 | The email lookups of the example session find the expected users |
| MockUsers.ScenarioRenameAndSearch | tests/test_users_database.py:152-163 | After the rename, searching first name "Karla" finds exactly the renamed user |
| MockUsers.Scenario | tests/test_users_database.py:137-183 | Two adds and an update succeed, the search finds the renamed user, and after both deletes the store is empty |
| Employees.ToDict | employee/employee.py:38-49 | Exactly the eight keys; email, hiring date and salary are the employee's |
| Employees.NewEmployee | employee/employee.py:5-16 | KeyError exactly when first name, last name or email is missing. Phone, address and birthday default to None. Hiring date and salary come from the arguments |
| Employees.NewEmployeeFromDict | employee/employee.py:8-49 | Building from the employee's own dictionary gives the same employee |
| Employees.SaveToDatabase | employee/employee.py:18-26 | A known email returns None with the store unchanged; otherwise the dictionary is appended and the add message returned |
| Employees.SavedEmployeeIsFound | tests/test_employee.py:76-97 | After saving into a store without the email, finding it returns the employee's dictionary |
| Employees.UpdateToDatabase | employee/employee.py:28-36 | An unknown email returns None with the store unchanged; otherwise the dictionary is merged into every match |
| Employees.UpdatedEmployeeIsFound | employee/employee.py:28-36 | After the update the lookup returns the old record with the eight fields taken from the employee and the rest kept |
| Managers.NewManager | employee/manager.py:6-15 | The employee is built as `Employee` builds it; the role is the argument |
| Managers.DefaultRoleIsManager | employee/manager.py:12-15 | Without a role argument the role is "Manager" |
| Managers.EmployeeFrom | employee/manager.py:62-67 | KeyError exactly when hiring date, salary or a required field is missing; otherwise an employee whose dictionary copies the record |
| Managers.WithRole | employee/manager.py:54 | Only the record at the index changes, and only in its role |
| Managers.AssignRole | employee/manager.py:43-57 | A non-Manager actor or an unknown email returns False with no change; otherwise only the first match gets the role, and True is returned |
| Managers.AssignedRoleIsFound | employee/manager.py:54-57 | After the assignment the lookup returns the user's record with the new role |
| Managers.AddEmployee | employee/manager.py:59-73 | A missing field is a KeyError with no change; otherwise the employee is saved, a duplicate changing nothing |
| Managers.UpdateEmployee | employee/manager.py:75-96 | Unknown email: no change. A merge lacking a needed field: KeyError and no change. Otherwise the merged employee's dictionary is written to its matches |
| Managers.UpdateEmployeeStoresMerge | employee/manager.py:77-93 | If the update leaves the email alone, the stored record takes the eight fields from the merge, with the update winning, and keeps every other field |
| Managers.DeleteEmployee | employee/manager.py:98-106 | Unknown email: no change; otherwise exactly the first match is removed and the rest keep their order |
| Managers.FindEmployee | employee/manager.py:108-114 | Reports the first user with the email and changes nothing |
| UserValidation.DayField | employee/validate_user.py:98 | `%d` accepts a day from 1 to 31 |
| UserValidation.MonthField | employee/validate_user.py:98 | `%m` accepts a month from 1 to 12 |
| UserValidation.YearField | employee/validate_user.py:98 | `%Y` takes four digits, 0 to 9999 |
| UserValidation.ParseBirthday | employee/validate_user.py:98 | A parsed birthday is always a real calendar date |
| UserValidation.ParseFormattedDate | employee/validate_user.py:98 | Every real date written `DD/MM/YYYY` parses back to itself |
| UserValidation.AdultIff | employee/validate_user.py:100-105 | The age is at least 18 exactly when the eighteenth anniversary is not after today |
| UserValidation.ValidateBirthday | employee/validate_user.py:95-108 | Not a string: TypeError. Not a real `DD/MM/YYYY` date: the format error. Under 18: the age error. Passes exactly when parsed and adult |
| UserValidation.EighteenthBirthday | employee/validate_user.py:100-106 | On the eighteenth birthday the check passes; the day before it fails |
| UserValidation.LeapDayBirthday | employee/validate_user.py:100-106 | Someone born on 29 February is adult from 1 March of the eighteenth year |
| UserValidation.DayOutOfRange | employee/validate_user.py:97-108 | "32/12/2000" is refused as a bad format |
| UserValidation.NoLeapDayIn2001 | employee/validate_user.py:97-108 | "29/02/2001" is refused as a bad format |
| UserValidation.NotSlashSeparated | employee/validate_user.py:97-108 | "01.01.1990" is refused as a bad format and a non-string is a TypeError |
| UserValidation.NameWordsIff | employee/validate_user.py:18-23 | The name pattern holds exactly for letter-only words separated by single spaces |
| UserValidation.NameRuleIff | employee/validate_user.py:18-23 | A name is valid exactly when it, or it without one final newline, is single-spaced letter words |
| UserValidation.PasswordRuleIff | employee/validate_user.py:33 | On one line, the password is valid exactly when it has at least 8 characters with an upper-case letter, a lower-case letter and a digit |
| UserValidation.ZipRuleIff | employee/validate_user.py:71 | A zip code is valid exactly when it is 5 to 8 digits, optionally followed by one newline |
| UserValidation.ValidateAsWritten | employee/validate_user.py:79-93 | As written: schema-valid data is returned with no birthday check, and refused data gets the birthday check |
| UserValidation.ValidateAcceptsMinor | employee/validate_user.py:79-93 | A schema-valid user under 18 is accepted as written and refused by the intended check |
| UserValidation.ValidateAsWrittenIgnoresAge | employee/validate_user.py:81-86 | As written, any schema-valid user is accepted unchanged whatever the birthday |
| UserValidation.Validate | employee/validate_user.py:79-93 | Intended: accepted exactly when the schema holds and the birthday passes, with the data unchanged. Refused data is re-prompted. The only exceptions are the two birthday errors |
| UserValidation.AcceptedUserIsAdult | employee/validate_user.py:81-86 | An accepted user has a real birthday and is at least 18 |
| UserValidation.ErrorMessage | employee/validate_user.py:110-128 | A known field gives its table message, any other the raw error |
| UserValidation.ErrorMessageCoverage | employee/validate_user.py:112-128 | Every top-level field but `address` has its own message; an error reported under `address` falls back to the raw error |
| UserValidation.AddressMessagesKeyed | employee/validate_user.py:122-126 | The five address fields have their messages under `address.<field>` |

## Left out

- Console I/O is not modelled:
  - the menus in main.py, employee/main.py and employee/main2.py;
  - `print` calls;
  - `display_product_info` and `Employee.__str__`, which only format text;
  - the prompt for a price or category code, which becomes a parameter.
- JSON and TinyDB storage are files modelled as values. Reading copies a file into memory or gives empty; saving copies memory out. Indentation and TinyDB internals are not modelled, nor is `_pretty_print_db`.
- Floating point is not modelled: prices and quantities are exact reals. A tag keeps whether a number is an int or a float, because `validate_product` checks for floats.
- Regular expressions are read with ASCII classes. `\d`, `\s` and `\w` do not match other Unicode characters, and `lower()` only folds A-Z.
- `str.strip()`, as `Text.Strip` models it (used on the category code in `filter_product_by_category`), removes ASCII whitespace only, not other Unicode spaces.
- Every catalog entry is assumed to hold all four fields, with a number for price and quantity. A hand-edited file that lacks `"price"`, or holds text there, would make `get_total_inventory_value` and the filters raise KeyError or TypeError; the catalog type cannot express such an entry.
- Nested dictionaries compare structurally. Python's numeric cross-type equality (`1 == 1.0`) is applied only at the top level of a record.
- `datetime.now()` is the parameter `today`.
- The Cerberus engine is replaced by the predicate `SchemaValid`. Its error dictionary and the re-prompt loop (`prompt_for_field`) are not modelled.
- Manager.login is not modelled: it calls a `validate_login` that no class defines, and bcrypt hashing (employee/login.py) is a foreign call.
- Managers.AssignRole: as written, the source calls `save_users`, which `UserManager` does not have. The model stores the role in the first matching record, as evidently intended.
- Managers.DeleteEmployee: as written, the source uses `users`, which `UserManager` does not have. The model removes the first matching record, as evidently intended.
- Managers.FindEmployee: the source prints the record it finds, or a not-found line, and returns None. The model returns the record it would print.
- Inventory.InventoryManager.GetTotalInventoryValue: the `if not self.database` branches (here and in `remove_product`) cannot fire, because a path object is always truthy. They are left out.
- Inventory.InventoryManager.UpdateProduct: the final `else` branch is unreachable, because `validate_product` returns True or raises. The non-Product TypeError cannot occur either, since the argument is typed `Product`.
- Module-level scripts are not modelled: the calls at the end of inventory/product.py and employee/test_tiny.py. The example session at the end of tests/test_users_database.py appears only as `MockUsers.Scenario`.
- The tests that depend on code the source lacks are not modelled:
  - `get_product_info`;
  - an undefined `Validation` class;
  - tests/test_registration.py, which does not parse.

## Findings

| source | as written | input that shows it | evidently intended | confidence | as-written member | corrected member |
|---|---|---|---|---|---|---|
| employee/validate_user.py:82-86 | `Validator.validate` returns True for valid data, so `if not errors` runs the birthday check only for data the schema refused. Valid data is returned unchecked | A schema-valid user born 01/01/2022, validated on 18/10/2026, is accepted | Check the birthday of schema-valid data and refuse users under 18; re-prompt refused data | high (not executed) | UserValidation.ValidateAsWritten, UserValidation.ValidateAcceptsMinor | UserValidation.Validate, UserValidation.AcceptedUserIsAdult |
